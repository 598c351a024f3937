/** Requests over an unreliable network, as the client makes them. */
module Client {
  import opened Paths
  import opened FileStore
  import opened Disk
  import opened Corpus
  import opened AflFiles
  import opened Fleet

  /** One try of a request: whether the transport takes the body out of the request's reader, whether what it then sends
      reaches the server, and whether the answer makes it back in time. */
  datatype Try = Try(consumes: bool, arrives: bool, answered: bool)

  /** How often a request is tried: at least once, whatever the limit. */
  function MaxTries(maxRetries: nat): nat {
    if maxRetries == 0 then 1 else maxRetries
  }

  /** All tries resend one request, whose reader is used up by the first of them that consumes it. */
  ghost predicate BodyLeft(tries: nat -> Try, n: nat) {
    forall j | 0 <= j < n :: !tries(j).consumes
  }

  /** The k-th try brings the body to the server. */
  ghost predicate Delivers(tries: nat -> Try, k: nat) {
    tries(k).consumes && tries(k).arrives && BodyLeft(tries, k)
  }

  ghost predicate DeliveredBefore(tries: nat -> Try, n: nat) {
    exists k: nat :: k < n && Delivers(tries, k)
  }

  ghost predicate AnsweredBefore(tries: nat -> Try, n: nat) {
    exists k: nat :: k < n && Delivers(tries, k) && tries(k).answered
  }

  /** At most one try delivers, and only the first that consumes the body can. */
  lemma OneDelivers(tries: nat -> Try, j: nat, k: nat)
    requires Delivers(tries, j) && tries(k).consumes
    ensures j <= k && (Delivers(tries, k) ==> j == k)
  {
  }

  lemma NextTry(tries: nat -> Try, n: nat)
    ensures BodyLeft(tries, n + 1) <==> BodyLeft(tries, n) && !tries(n).consumes
    ensures DeliveredBefore(tries, n + 1) <==> DeliveredBefore(tries, n) || Delivers(tries, n)
    ensures AnsweredBefore(tries, n + 1) <==> AnsweredBefore(tries, n) || (Delivers(tries, n) && tries(n).answered)
    ensures Delivers(tries, n) ==> !DeliveredBefore(tries, n)
  {
    assert Delivers(tries, n) ==> forall k: nat | k < n :: !tries(k).consumes;
  }

  /** An answered try ends the loop, so the tries after it, which cannot deliver, do not matter. */
  lemma LaterTries(tries: nat -> Try, n: nat, limit: nat)
    requires DeliveredBefore(tries, n) && n <= limit
    ensures DeliveredBefore(tries, limit)
    ensures AnsweredBefore(tries, limit) <==> AnsweredBefore(tries, n)
  {
    var j: nat :| j < n && Delivers(tries, j);
    if AnsweredBefore(tries, limit) {
      var k: nat :| k < limit && Delivers(tries, k) && tries(k).answered;
      OneDelivers(tries, j, k);
    }
  }

  /** The server's files after the first `n` tries. */
  ghost function AfterTries(files: Files, stores: seq<Write>, tries: nat -> Try, n: nat): Files {
    if DeliveredBefore(tries, n) then Apply(files, stores) else files
  }

  /** How the retry loop may end: with `ok`, and these files. It succeeds exactly if a try within the limit delivers,
      the server can store the upload, and that try is answered; the upload is stored, once, if a try delivers. */
  ghost predicate Ending(was: Files, stores: seq<Write>, storable: bool, tries: nat -> Try, limit: nat, ok: bool,
                         files: Files) {
    && (ok <==> AnsweredBefore(tries, limit) && storable)
    && files == AfterTries(was, stores, tries, limit)
  }

  /** The loop before its n-th try: no answer yet, and the body `left` in the reader or not. */
  ghost predicate Retrying(was: Files, stores: seq<Write>, storable: bool, tries: nat -> Try, n: nat, files: Files,
                           left: bool) {
    Ending(was, stores, storable, tries, n, false, files) && (left <==> BodyLeft(tries, n))
  }

  lemma TryEnds(was: Files, stores: seq<Write>, storable: bool, tries: nat -> Try, n: nat, files: Files, left: bool)
    requires Retrying(was, stores, storable, tries, n, files, left)
    ensures var delivers := left && tries(n).consumes && tries(n).arrives;
            Ending(was, stores, storable, tries, n + 1, delivers && tries(n).answered && storable,
                   if delivers then Apply(files, stores) else files)
    ensures left && !tries(n).consumes <==> BodyLeft(tries, n + 1)
  {
    NextTry(tries, n);
  }

  /** One round of the loop. */
  method TryNext(disk: Disk, fm: FleetFileManager, id: string, output: AflOutput, tries: nat -> Try, n: nat, left: bool,
                 ghost was: Files, ghost ws: seq<Write>, ghost stores: seq<Write>)
    returns (ok: bool)
    requires disk.Valid() && Clean(fm.Basedir)
    requires ws == fm.Afl(id).OutputWrites(output.Value()) && stores == Accepted(disk.dirs, ws)
    requires Retrying(was, stores, stores == ws, tries, n, disk.files, left)
    modifies disk`files
    ensures disk.Valid()
    ensures ok ==> Ending(was, stores, stores == ws, tries, n + 1, true, disk.files)
    ensures !ok ==> Retrying(was, stores, stores == ws, tries, n + 1, disk.files, left && !tries(n).consumes)
  {
    TryEnds(was, stores, stores == ws, tries, n, disk.files, left);
    var stored := false;
    if left && tries(n).consumes && tries(n).arrives {
      stored := fm.WriteOutput(disk, id, output);
    }
    ok := stored && tries(n).answered;
  }

  lemma EndsEarly(was: Files, stores: seq<Write>, storable: bool, tries: nat -> Try, n: nat, limit: nat, files: Files)
    requires Ending(was, stores, storable, tries, n, true, files) && n <= limit
    ensures Ending(was, stores, storable, tries, limit, true, files)
  {
    LaterTries(tries, n, limit);
  }

  lemma NoTryYet(was: Files, stores: seq<Write>, storable: bool, tries: nat -> Try)
    ensures Retrying(was, stores, storable, tries, 0, was, true)
  {
  }

  lemma Exhausted(was: Files, stores: seq<Write>, storable: bool, tries: nat -> Try, n: nat, files: Files, left: bool)
    requires Retrying(was, stores, storable, tries, n, files, left)
    ensures Ending(was, stores, storable, tries, n, false, files)
  {
  }

  /** The retry loop. */
  method MakeRequest(disk: Disk, fm: FleetFileManager, id: string, output: AflOutput, tries: nat -> Try,
                     maxRetries: nat, ghost ws: seq<Write>, ghost stores: seq<Write>)
    returns (ok: bool)
    requires disk.Valid() && Clean(fm.Basedir)
    requires ws == fm.Afl(id).OutputWrites(output.Value()) && stores == Accepted(disk.dirs, ws)
    modifies disk`files
    ensures disk.Valid()
    ensures Ending(old(disk.files), stores, stores == ws, tries, MaxTries(maxRetries), ok, disk.files)
  {
    ghost var was := disk.files;
    NoTryYet(was, stores, stores == ws, tries);
    var nTries, left := 0, true;
    while true
      invariant disk.Valid() && nTries < MaxTries(maxRetries)
      invariant Retrying(was, stores, stores == ws, tries, nTries, disk.files, left)
      decreases MaxTries(maxRetries) - nTries
    {
      ok := TryNext(disk, fm, id, output, tries, nTries, left, was, ws, stores);
      if ok {
        EndsEarly(was, stores, stores == ws, tries, nTries + 1, MaxTries(maxRetries), disk.files);
        return;
      }
      left := left && !tries(nTries).consumes;
      nTries := nTries + 1;
      if nTries >= maxRetries {
        Exhausted(was, stores, stores == ws, tries, nTries, disk.files, left);
        return;
      }
    }
  }

  method UploadState(disk: Disk, fm: FleetFileManager, id: string, output: AflOutput, tries: nat -> Try,
                     maxRetries: nat)
    returns (ok: bool)
    requires disk.Valid() && Clean(fm.Basedir)
    modifies disk`files
    ensures disk.Valid()
    ensures var ws := fm.Afl(id).OutputWrites(output.Value());
            var storable := Accepted(disk.dirs, ws) == ws;
            var limit := if maxRetries == 0 then 1 else maxRetries;
            Ending(old(disk.files), Accepted(disk.dirs, ws), storable, tries, limit, ok, disk.files)
  {
    ghost var ws := fm.Afl(id).OutputWrites(output.Value());
    ok := MakeRequest(disk, fm, id, output, tries, maxRetries, ws, Accepted(disk.dirs, ws));
  }

  /** The first try that consumes the body decides: if it is not made or does not arrive, nothing is stored, whatever
      the other tries do; otherwise the accepted writes are, and it succeeds if they are all and it is answered. */
  lemma FirstReaderDecides(was: Files, stores: seq<Write>, storable: bool, tries: nat -> Try, k: nat, limit: nat,
                           ok: bool, files: Files)
    requires Ending(was, stores, storable, tries, limit, ok, files)
    requires (forall j | 0 <= j < k :: !tries(j).consumes) && (tries(k).consumes || limit <= k)
    ensures ok <==> k < limit && tries(k).arrives && tries(k).answered && storable
    ensures files == if k < limit && tries(k).arrives then Apply(was, stores) else was
  {
    assert k < limit && tries(k).arrives ==> Delivers(tries, k);
    if j: nat :| j < limit && Delivers(tries, j) {
      assert j >= k && (k < limit ==> j <= k);
    }
  }
}
