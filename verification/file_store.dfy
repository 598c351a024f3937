/** File bodies and the store-wide effect of a series of writes, as `WriteInputToFile` performs them. */
module FileStore {
  import opened Text
  import opened Paths

  newtype Byte = b: int | 0 <= b < 256
  type Bytes = seq<Byte>
  type Files = map<Path, Bytes>

  // ---------------------------------------------------------------- one write

  /** A write at offset 0 of a file opened without truncation: the tail of a longer old body survives. */
  function Overlay(was: Bytes, body: Bytes): (r: Bytes) {
    if |was| <= |body| then body else body + was[|body|..]
  }

  lemma OverlayAssociative(a: Bytes, b: Bytes, c: Bytes)
    ensures Overlay(Overlay(a, b), c) == Overlay(a, Overlay(b, c))
  {
    var l, r := Overlay(Overlay(a, b), c), Overlay(a, Overlay(b, c));
    assert |l| == |r|;
    assert forall i | 0 <= i < |l| :: l[i] == r[i];
  }

  /** A write of a prefix, or of an extension, of what is already there acts as a join on prefixes. */
  lemma OverlayJoinsPrefixes(whole: Bytes, a: Bytes, b: Bytes)
    requires a <= whole && b <= whole
    ensures Overlay(a, b) == if |a| <= |b| then b else a
    ensures a <= Overlay(a, b) <= whole && b <= Overlay(a, b)
  {
    if |b| < |a| {
      assert b == a[..|b|];
    }
  }

  /** Writing a body in two pieces, the first of them cut anywhere, is writing it once. */
  lemma OverlayTornWrite(was: Bytes, body: Bytes, n: nat)
    requires n <= |body|
    ensures Overlay(Overlay(was, body[..n]), body) == Overlay(was, body)
  {
    OverlayAssociative(was, body[..n], body);
  }

  // ---------------------------------------------------------------- a series of writes

  datatype Write = Write(path: Path, body: Bytes)

  function Body(files: Files, p: Path): Option<Bytes> {
    if p in files then Some(files[p]) else None
  }

  function Put(files: Files, w: Write): Files {
    files[w.path := Overlay(if w.path in files then files[w.path] else [], w.body)]
  }

  function Apply(files: Files, ws: seq<Write>): Files {
    if ws == [] then files else Put(Apply(files, ws[..|ws| - 1]), ws[|ws| - 1])
  }

  lemma {:induction false} ApplyConcat(files: Files, a: seq<Write>, b: seq<Write>)
    ensures Apply(files, a + b) == Apply(Apply(files, a), b)
  {
    if b == [] {
      assert a + b == a;
    } else {
      assert (a + b)[..|a + b| - 1] == a + b[..|b| - 1];
      ApplyConcat(files, a, b[..|b| - 1]);
    }
  }

  /** The byte at offset `i` of file `p`, if there is one. */
  function ByteAt(files: Files, p: Path, i: nat): Option<Byte> {
    if p in files && i < |files[p]| then Some(files[p][i]) else None
  }

  /** The index of the last write to `p` that reaches offset `i`, or -1. */
  function LastCover(ws: seq<Write>, p: Path, i: nat): (j: int)
    ensures -1 <= j < |ws|
    ensures j >= 0 ==> ws[j].path == p && i < |ws[j].body|
    ensures forall k | j < k < |ws| :: !(ws[k].path == p && i < |ws[k].body|)
  {
    if ws == [] then -1
    else
      var last := |ws| - 1;
      if ws[last].path == p && i < |ws[last].body| then last else LastCover(ws[..last], p, i)
  }

  /** Closed form of a series of writes, byte by byte: the last write long enough wins, else the old file. */
  lemma {:induction false} ApplyByte(files: Files, ws: seq<Write>, p: Path, i: nat)
    ensures var j := LastCover(ws, p, i);
            ByteAt(Apply(files, ws), p, i) == if j >= 0 then Some(ws[j].body[i]) else ByteAt(files, p, i)
  {
    if ws != [] {
      ApplyByte(files, ws[..|ws| - 1], p, i);
    }
  }

  lemma {:induction false} ApplyDomain(files: Files, ws: seq<Write>, p: Path)
    ensures p in Apply(files, ws) <==> p in files || exists j | 0 <= j < |ws| :: ws[j].path == p
  {
    if ws != [] {
      var front := ws[..|ws| - 1];
      ApplyDomain(files, front, p);
      if j :| 0 <= j < |front| && front[j].path == p {
        assert ws[j].path == p;
      }
    }
  }

  /** Two stores with the same files and the same bytes at every offset are the same store. */
  lemma StoreExtensionality(a: Files, b: Files)
    requires forall p :: p in a <==> p in b
    requires forall p, i: nat :: ByteAt(a, p, i) == ByteAt(b, p, i)
    ensures a == b
  {
    forall p | p in a
      ensures a[p] == b[p]
    {
      assert ByteAt(a, p, |a[p]|) == ByteAt(b, p, |a[p]|);
      assert ByteAt(a, p, |b[p]|) == ByteAt(b, p, |b[p]|);
      forall i | 0 <= i < |a[p]|
        ensures a[p][i] == b[p][i]
      {
        assert ByteAt(a, p, i) == ByteAt(b, p, i);
      }
    }
  }

  /** Replaying any series of writes, however many names repeat in it, changes nothing. */
  lemma ApplyIdempotent(files: Files, ws: seq<Write>)
    ensures Apply(Apply(files, ws), ws) == Apply(files, ws)
  {
    var once, twice := Apply(files, ws), Apply(Apply(files, ws), ws);
    forall p
      ensures p in once <==> p in twice
    {
      ApplyDomain(files, ws, p);
      ApplyDomain(once, ws, p);
    }
    forall p, i: nat
      ensures ByteAt(once, p, i) == ByteAt(twice, p, i)
    {
      ApplyByte(files, ws, p, i);
      ApplyByte(once, ws, p, i);
    }
    StoreExtensionality(twice, once);
  }

  /** No file disappears, no file shrinks: a file's new length is the maximum of all lengths involved. */
  lemma {:induction false} ApplyGrows(files: Files, ws: seq<Write>, p: Path)
    requires p in files
    ensures p in Apply(files, ws)
    ensures |files[p]| <= |Apply(files, ws)[p]|
    ensures forall j | 0 <= j < |ws| && ws[j].path == p :: |ws[j].body| <= |Apply(files, ws)[p]|
    ensures |Apply(files, ws)[p]| == |files[p]|
         || exists j | 0 <= j < |ws| :: ws[j].path == p && |Apply(files, ws)[p]| == |ws[j].body|
  {
    if ws != [] {
      var front := ws[..|ws| - 1];
      ApplyGrows(files, front, p);
      if |Apply(files, front)[p]| != |files[p]| {
        var j :| 0 <= j < |front| && front[j].path == p && |Apply(files, front)[p]| == |front[j].body|;
        assert ws[j].path == p;
      }
    }
  }

  // ---------------------------------------------------------------- only the order on each path matters

  /** The bodies written to `p`, in order. */
  function BodiesOn(ws: seq<Write>, p: Path): seq<Bytes> {
    if ws == [] then []
    else
      var last := ws[|ws| - 1];
      BodiesOn(ws[..|ws| - 1], p) + if last.path == p then [last.body] else []
  }

  /** What a series of writes makes of one file. */
  function Merge(was: Option<Bytes>, bodies: seq<Bytes>): Option<Bytes> {
    if bodies == [] then was
    else
      var before := Merge(was, bodies[..|bodies| - 1]);
      Some(Overlay(if before.Some? then before.value else [], bodies[|bodies| - 1]))
  }

  lemma {:induction false} ApplyOnPath(files: Files, ws: seq<Write>, p: Path)
    ensures Body(Apply(files, ws), p) == Merge(Body(files, p), BodiesOn(ws, p))
  {
    if ws != [] {
      var front, last := ws[..|ws| - 1], ws[|ws| - 1];
      ApplyOnPath(files, front, p);
      if last.path == p {
        assert BodiesOn(ws, p)[..|BodiesOn(ws, p)| - 1] == BodiesOn(front, p);
      } else {
        assert BodiesOn(ws, p) == BodiesOn(front, p);
      }
    }
  }

  lemma OnlyOrderPerPathMatters(files: Files, a: seq<Write>, b: seq<Write>)
    requires forall p :: BodiesOn(a, p) == BodiesOn(b, p)
    ensures Apply(files, a) == Apply(files, b)
  {
    forall p
      ensures Body(Apply(files, a), p) == Body(Apply(files, b), p)
    {
      ApplyOnPath(files, a, p);
      ApplyOnPath(files, b, p);
    }
    BodyExtensionality(Apply(files, a), Apply(files, b));
  }

  lemma BodyExtensionality(a: Files, b: Files)
    requires forall p :: Body(a, p) == Body(b, p)
    ensures a == b
  {
    assert forall p :: (p in a <==> p in b) && (p in a ==> a[p] == b[p]) by {
      forall p ensures (p in a <==> p in b) && (p in a ==> a[p] == b[p]) {
        assert Body(a, p) == Body(b, p);
      }
    }
  }

  // ---------------------------------------------------------------- concurrent uploads

  /** A write tagged with the fuzzer whose upload performs it. */
  datatype Tagged = Tagged(id: string, write: Write)

  function Erase(run: seq<Tagged>): (ws: seq<Write>)
    ensures |ws| == |run|
  {
    seq(|run|, i requires 0 <= i < |run| => run[i].write)
  }

  /** The writes of one fuzzer's upload, in the order they happen in `run`. */
  function UploadOf(run: seq<Tagged>, id: string): seq<Write> {
    if run == [] then []
    else
      var last := run[|run| - 1];
      UploadOf(run[..|run| - 1], id) + if last.id == id then [last.write] else []
  }

  /** Every write stays below the directory of the fuzzer it is tagged with. */
  ghost predicate StaysHome(root: Path, run: seq<Tagged>) {
    forall i | 0 <= i < |run| :: root + [run[i].id] <= run[i].write.path
  }

  lemma BodiesOnSnoc(ws: seq<Write>, w: Write, p: Path)
    ensures BodiesOn(ws + [w], p) == BodiesOn(ws, p) + if w.path == p then [w.body] else []
  {
    assert (ws + [w])[..|ws|] == ws;
  }

  lemma {:induction false} BodiesComeFromOwner(root: Path, run: seq<Tagged>, p: Path)
    requires StaysHome(root, run)
    ensures root < p ==> BodiesOn(Erase(run), p) == BodiesOn(UploadOf(run, p[|root|]), p)
    ensures !(root < p) ==> BodiesOn(Erase(run), p) == []
  {
    if run != [] {
      var front, last := run[..|run| - 1], run[|run| - 1];
      BodiesComeFromOwner(root, front, p);
      assert Erase(run)[..|run| - 1] == Erase(front);
      assert root + [last.id] <= last.write.path;
      assert last.write.path[|root|] == (root + [last.id])[|root|] == last.id;
      if root < p {
        BodiesOnSnoc(UploadOf(front, p[|root|]), last.write, p);
        assert UploadOf(front, p[|root|]) + [] == UploadOf(front, p[|root|]);
      } else {
        assert root < last.write.path;
      }
    }
  }

  /** Uploads of different fuzzers commute: the tree depends on each upload alone, not on the interleaving. */
  lemma InterleavingIndependence(files: Files, root: Path, a: seq<Tagged>, b: seq<Tagged>)
    requires StaysHome(root, a) && StaysHome(root, b)
    requires forall id :: UploadOf(a, id) == UploadOf(b, id)
    ensures Apply(files, Erase(a)) == Apply(files, Erase(b))
  {
    forall p
      ensures BodiesOn(Erase(a), p) == BodiesOn(Erase(b), p)
    {
      BodiesComeFromOwner(root, a, p);
      BodiesComeFromOwner(root, b, p);
    }
    OnlyOrderPerPathMatters(files, Erase(a), Erase(b));
  }

  function Tag(id: string, ws: seq<Write>): (run: seq<Tagged>)
    ensures |run| == |ws|
  {
    seq(|ws|, i requires 0 <= i < |ws| => Tagged(id, ws[i]))
  }

  /** The uploads one after the other, in the given order of fuzzers. */
  function InTurn(order: seq<string>, uploads: map<string, seq<Write>>): seq<Tagged>
    requires forall id | id in order :: id in uploads
  {
    if order == [] then []
    else
      var last := order[|order| - 1];
      InTurn(order[..|order| - 1], uploads) + Tag(last, uploads[last])
  }

  ghost predicate NoRepeats<T(!new)>(s: seq<T>) {
    forall i, j | 0 <= i < j < |s| :: s[i] != s[j]
  }

  lemma {:induction false} UploadOfConcat(a: seq<Tagged>, b: seq<Tagged>, id: string)
    ensures UploadOf(a + b, id) == UploadOf(a, id) + UploadOf(b, id)
  {
    if b == [] {
      assert a + b == a;
    } else {
      assert (a + b)[..|a + b| - 1] == a + b[..|b| - 1];
      UploadOfConcat(a, b[..|b| - 1], id);
    }
  }

  lemma {:induction false} UploadOfTag(tag: string, ws: seq<Write>, id: string)
    ensures UploadOf(Tag(tag, ws), id) == if id == tag then ws else []
  {
    if ws != [] {
      assert Tag(tag, ws)[..|ws| - 1] == Tag(tag, ws[..|ws| - 1]);
      UploadOfTag(tag, ws[..|ws| - 1], id);
      assert ws == ws[..|ws| - 1] + [ws[|ws| - 1]];
    }
  }

  lemma NoRepeatsSplit<T(!new)>(s: seq<T>)
    requires NoRepeats(s) && s != []
    ensures NoRepeats(s[..|s| - 1]) && s[|s| - 1] !in s[..|s| - 1]
    ensures forall x :: x in s <==> x in s[..|s| - 1] || x == s[|s| - 1]
  {
    assert s == s[..|s| - 1] + [s[|s| - 1]];
  }

  lemma {:induction false} UploadInTurn(order: seq<string>, uploads: map<string, seq<Write>>, id: string)
    requires forall i | i in order :: i in uploads
    requires NoRepeats(order)
    ensures UploadOf(InTurn(order, uploads), id) == if id in order then uploads[id] else []
  {
    if order != [] {
      var front, last := order[..|order| - 1], order[|order| - 1];
      NoRepeatsSplit(order);
      UploadInTurn(front, uploads, id);
      UploadOfConcat(InTurn(front, uploads), Tag(last, uploads[last]), id);
      UploadOfTag(last, uploads[last], id);
    }
  }

  lemma {:induction false} InTurnStaysHome(root: Path, order: seq<string>, uploads: map<string, seq<Write>>)
    requires forall i | i in order :: i in uploads
    requires forall id, j | id in uploads && 0 <= j < |uploads[id]| :: root + [id] <= uploads[id][j].path
    ensures StaysHome(root, InTurn(order, uploads))
  {
    if order != [] {
      InTurnStaysHome(root, order[..|order| - 1], uploads);
    }
  }

  /** Any interleaving of whole uploads leaves the tree that performing them in turn leaves, in any order. */
  lemma InterleavedEqualsSequential(files: Files, root: Path, run: seq<Tagged>, order: seq<string>,
                                    uploads: map<string, seq<Write>>)
    requires NoRepeats(order) && forall id :: id in order <==> id in uploads
    requires forall id, j | id in uploads && 0 <= j < |uploads[id]| :: root + [id] <= uploads[id][j].path
    requires StaysHome(root, run)
    requires forall id :: UploadOf(run, id) == if id in uploads then uploads[id] else []
    ensures Apply(files, Erase(run)) == Apply(files, Erase(InTurn(order, uploads)))
  {
    InTurnStaysHome(root, order, uploads);
    forall id
      ensures UploadOf(run, id) == UploadOf(InTurn(order, uploads), id)
    {
      UploadInTurn(order, uploads, id);
    }
    InterleavingIndependence(files, root, run, InTurn(order, uploads));
  }
}
