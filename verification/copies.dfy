/** Several upload handlers that archive at the same time: their copies of one crash, interleaved chunk by chunk. */
module Copies {
  import opened FileStore
  import opened Archiver

  // ---------------------------------------------------------------- copies of one file

  /** A copy is to be made, or has created the destination and copied the first `off` bytes so far, or has come to the
      end of the source, or has failed. The last two record how far it came. */
  datatype Copy = Waiting | Writing(off: nat) | Finished(off: nat) | Failed(off: nat)

  /** `last` is the copy that created the destination last. */
  datatype State = State(source: Bytes, dst: Bytes, copies: seq<Copy>, last: nat)

  datatype Action =
    | Extend(source: Bytes)   // an upload writes a longer body of the crash
    | Start                   // another handler comes to the crash
    | Create(c: nat)          // `os.Create`: truncates
    | Chunk(c: nat, n: nat)   // one read and one write, through the copy's own descriptor
    | End(c: nat)             // a read that finds no more bytes
    | Fail(c: nat)

  /** A write through a descriptor at an offset. A gap before the offset reads as zeros. */
  function WriteAt(file: Bytes, off: nat, data: Bytes): (r: Bytes)
    ensures |r| == if data == [] || off + |data| <= |file| then |file| else off + |data|
    ensures forall i | 0 <= i < |r| ::
              r[i] == if off <= i < off + |data| then data[i - off] else if i < |file| then file[i] else 0
  {
    if data == [] then file
    else
      seq(if off + |data| <= |file| then |file| else off + |data|,
          i requires 0 <= i =>
            if off <= i < off + |data| then data[i - off] else if i < |file| then file[i] else 0)
  }

  predicate Enabled(s: State, a: Action) {
    match a
    case Extend(source) => s.source <= source
    case Start => true
    case Create(c) => c < |s.copies| && s.copies[c].Waiting?
    case Chunk(c, n) => c < |s.copies| && s.copies[c].Writing? && s.copies[c].off <= n <= |s.source|
    case End(c) => c < |s.copies| && s.copies[c].Writing? && |s.source| <= s.copies[c].off
    case Fail(c) => c < |s.copies| && s.copies[c].Writing?
  }

  function Step(s: State, a: Action): State
    requires Enabled(s, a)
  {
    match a
    case Extend(source) => s.(source := source)
    case Start => s.(copies := s.copies + [Waiting])
    case Create(c) => s.(dst := [], copies := s.copies[c := Writing(0)], last := c)
    case Chunk(c, n) =>
      var off := s.copies[c].off;
      s.(dst := WriteAt(s.dst, off, s.source[off..n]), copies := s.copies[c := Writing(n)])
    case End(c) => s.(copies := s.copies[c := Finished(s.copies[c].off)])
    case Fail(c) => s.(copies := s.copies[c := Failed(s.copies[c].off)])
  }

  /** Whatever the destination held, no handler at work yet. */
  function Begin(source: Bytes, dst: Bytes): State {
    State(source, dst, [], 0)
  }

  ghost predicate Run(s: State, acts: seq<Action>, s': State)
    decreases |acts|
  {
    if acts == [] then s' == s else Enabled(s, acts[0]) && Run(Step(s, acts[0]), acts[1..], s')
  }

  ghost predicate Reachable(s: State) {
    exists source, dst, acts :: Run(Begin(source, dst), acts, s)
  }

  /** Some copy has created the destination. */
  predicate Created(s: State) {
    s.last < |s.copies| && !s.copies[s.last].Waiting?
  }

  // ---------------------------------------------------------------- the invariant

  function Off(copy: Copy): nat {
    if copy.Waiting? then 0 else copy.off
  }

  /** As far as the copy that created the file last has come, the file is the source; beyond that each byte is the
      source's or, where a copy that started earlier has left a gap, zero. */
  ghost predicate FileOk(source: Bytes, dst: Bytes, off: nat) {
    && off <= |dst| <= |source| && dst[..off] == source[..off]
    && forall i | off <= i < |dst| :: dst[i] == source[i] || dst[i] == 0
  }

  /** Once that copy has come to the end of the source, no gap is left, and none arises any more. */
  ghost predicate Whole(s: State) {
    s.dst <= s.source && forall c | 0 <= c < |s.copies| && s.copies[c].Writing? :: s.copies[c].off <= |s.dst|
  }

  ghost predicate Inv(s: State) {
    && (forall c | 0 <= c < |s.copies| :: Off(s.copies[c]) <= |s.source|)
    && ((forall c | 0 <= c < |s.copies| :: s.copies[c].Waiting?) || Created(s))
    && (Created(s) ==> FileOk(s.source, s.dst, s.copies[s.last].off))
    && (Created(s) && s.copies[s.last].Finished? ==> Whole(s))
  }

  lemma ExtendOk(source: Bytes, source': Bytes, dst: Bytes, off: nat)
    requires FileOk(source, dst, off) && source <= source'
    ensures FileOk(source', dst, off)
  {
  }

  /** A chunk of any copy agrees with the source, so it spoils nothing. */
  lemma ChunkOk(source: Bytes, dst: Bytes, off: nat, from: nat, n: nat)
    requires FileOk(source, dst, off) && from <= n <= |source|
    ensures FileOk(source, WriteAt(dst, from, source[from..n]), off)
    ensures from == off ==> FileOk(source, WriteAt(dst, from, source[from..n]), n)
  {
  }

  lemma ChunkWhole(source: Bytes, dst: Bytes, from: nat, n: nat)
    requires dst <= source && from <= |dst| && from <= n <= |source|
    ensures var r := WriteAt(dst, from, source[from..n]); r <= source && n <= |r| && |dst| <= |r|
  {
  }

  lemma ChunkInv(s: State, c: nat, n: nat)
    requires Inv(s) && Enabled(s, Chunk(c, n))
    ensures Inv(Step(s, Chunk(c, n)))
  {
    var off := s.copies[c].off;
    ChunkOk(s.source, s.dst, s.copies[s.last].off, off, n);
    if s.copies[s.last].Finished? {
      ChunkWhole(s.source, s.dst, off, n);
    }
  }

  lemma EndInv(s: State, c: nat)
    requires Inv(s) && Enabled(s, End(c))
    ensures Inv(Step(s, End(c)))
  {
    if c == s.last {
      assert s.dst == s.dst[..s.copies[c].off] && s.source == s.source[..s.copies[c].off];
    }
  }

  lemma StepInv(s: State, a: Action)
    requires Inv(s) && Enabled(s, a)
    ensures Inv(Step(s, a))
  {
    match a
    case Extend(source) =>
      if Created(s) {
        ExtendOk(s.source, source, s.dst, s.copies[s.last].off);
      }
    case Start =>
    case Create(c) =>
    case Chunk(c, n) => ChunkInv(s, c, n);
    case End(c) => EndInv(s, c);
    case Fail(c) =>
  }

  lemma {:induction false} RunInv(s: State, acts: seq<Action>, s': State)
    requires Inv(s) && Run(s, acts, s')
    ensures Inv(s')
    decreases |acts|
  {
    if acts != [] {
      StepInv(s, acts[0]);
      RunInv(Step(s, acts[0]), acts[1..], s');
    }
  }

  lemma ReachableInv(s: State)
    requires Reachable(s)
    ensures Inv(s)
  {
    var source, dst, acts :| Run(Begin(source, dst), acts, s);
    RunInv(Begin(source, dst), acts, s);
  }

  // ---------------------------------------------------------------- what is left in the archive

  ghost predicate NoneCreates(acts: seq<Action>) {
    forall a | a in acts :: !a.Create?
  }

  lemma StepKeeps(s: State, a: Action)
    requires Inv(s) && Created(s) && s.copies[s.last].Finished? && Enabled(s, a) && !a.Create?
    ensures var s' := Step(s, a);
            && Created(s') && s'.last == s.last && s'.copies[s'.last] == s.copies[s.last] && s.source <= s'.source
  {
  }

  lemma {:induction false} RunKeeps(s: State, acts: seq<Action>, s': State)
    requires Inv(s) && Created(s) && s.copies[s.last].Finished? && Run(s, acts, s') && NoneCreates(acts)
    ensures Inv(s') && Created(s') && s'.last == s.last && s'.copies[s'.last] == s.copies[s.last]
    ensures s.source <= s'.source
    decreases |acts|
  {
    if acts != [] {
      assert acts[0] in acts && forall a | a in acts[1..] :: a in acts;
      StepInv(s, acts[0]);
      StepKeeps(s, acts[0]);
      RunKeeps(Step(s, acts[0]), acts[1..], s');
    }
  }

  /** Once the copy that created the file last has come to its end, the archive holds the whole body that the crash had
      then, or more of it, whatever other copies are still at work, have failed or have succeeded; and this stays so
      until another copy creates the file. */
  lemma LastCopyCounts(s: State, acts: seq<Action>, s': State)
    requires Reachable(s) && Enabled(s, End(s.last))
    requires Run(Step(s, End(s.last)), acts, s') && NoneCreates(acts)
    ensures s.source <= s'.dst <= s'.source
    ensures s'.source == s.source ==> s'.dst == s.source
  {
    ReachableInv(s);
    StepInv(s, End(s.last));
    RunKeeps(Step(s, End(s.last)), acts, s');
    assert s'.dst == s'.source[..|s'.dst|] && s.source == s'.source[..|s.source|];
  }

  /** A copy that is alone does what the copies of a single call do. */
  lemma AloneAsCopyOne(source: Bytes, dst: Bytes, fault: Fault) returns (s: State)
    requires !fault.BeforeCreate?
    ensures Reachable(s) && s.source == source && s.dst == Cut(source, fault)
    ensures s.copies == [if fault.NoFault? then Finished(|source|) else Failed(|s.dst|)]
  {
    var n := |Cut(source, fault)|;
    var s1 := State(source, dst, [Waiting], 0);
    var s2 := State(source, [], [Writing(0)], 0);
    var s3 := State(source, source[..n], [Writing(n)], 0);
    var end := if fault.NoFault? then End(0) else Fail(0);
    assert source[0..n] == source[..n] == WriteAt([], 0, source[0..n]);
    BeginsOnce(source, dst);
    ReachesOn(s1, Create(0), s2);
    ReachesOn(s2, Chunk(0, n), s3);
    s := Step(s3, end);
    ReachesOn(s3, end, s);
    assert source[..|source|] == source;
  }

  lemma BeginsOnce(source: Bytes, dst: Bytes)
    ensures Reachable(State(source, dst, [Waiting], 0))
  {
    assert Run(Begin(source, dst), [], Begin(source, dst));
    ReachesOn(Begin(source, dst), Start, State(source, dst, [Waiting], 0));
  }

  lemma RunOf(s: State, a: Action, rest: seq<Action>, s': State)
    requires Enabled(s, a) && Run(Step(s, a), rest, s')
    ensures Run(s, [a] + rest, s')
  {
    assert ([a] + rest)[0] == a && ([a] + rest)[1..] == rest;
  }

  /** But a copy that succeeds is not enough: another that has created the file in between, and fails, can leave a gap
      of zeros at the front. */
  lemma SuccessIsNotEnough() returns (s: State)
    ensures Reachable(s) && s.source == [1, 2, 3] && s.dst == [0, 0, 3]
    ensures s.copies == [Finished(3), Failed(0)]
  {
    var body: Bytes := [1, 2, 3];
    var s2 := State(body, [], [Waiting, Waiting], 0);
    var s3 := State(body, [], [Writing(0), Waiting], 0);
    var s4 := State(body, [1, 2], [Writing(2), Waiting], 0);
    var s5 := State(body, [], [Writing(2), Writing(0)], 1);
    var s6 := State(body, [0, 0, 3], [Writing(3), Writing(0)], 1);
    var s7 := State(body, [0, 0, 3], [Finished(3), Writing(0)], 1);
    s := State(body, [0, 0, 3], [Finished(3), Failed(0)], 1);
    BeginsTwice(body);
    ReachesOn(s2, Create(0), s3);
    assert WriteAt([], 0, body[0..2]) == [1, 2];
    ReachesOn(s3, Chunk(0, 2), s4);
    ReachesOn(s4, Create(1), s5);
    assert WriteAt([], 2, body[2..3]) == [0, 0, 3];
    ReachesOn(s5, Chunk(0, 3), s6);
    ReachesOn(s6, End(0), s7);
    ReachesOn(s7, Fail(1), s);
  }

  lemma {:induction false} RunSnoc(s: State, acts: seq<Action>, mid: State, a: Action)
    requires Run(s, acts, mid) && Enabled(mid, a)
    ensures Run(s, acts + [a], Step(mid, a))
    decreases |acts|
  {
    if acts == [] {
      RunOf(mid, a, [], Step(mid, a));
      assert acts + [a] == [a] + [];
    } else {
      RunSnoc(Step(s, acts[0]), acts[1..], mid, a);
      RunOf(s, acts[0], acts[1..] + [a], Step(mid, a));
      assert [acts[0]] + (acts[1..] + [a]) == acts + [a];
    }
  }

  lemma ReachesOn(s: State, a: Action, s': State)
    requires Reachable(s) && Enabled(s, a) && s' == Step(s, a)
    ensures Reachable(s')
  {
    var source, dst, acts :| Run(Begin(source, dst), acts, s);
    RunSnoc(Begin(source, dst), acts, s, a);
  }

  lemma BeginsTwice(body: Bytes)
    ensures Reachable(State(body, [], [Waiting, Waiting], 0))
  {
    BeginsOnce(body, []);
    ReachesOn(State(body, [], [Waiting], 0), Start, State(body, [], [Waiting, Waiting], 0));
  }
}
