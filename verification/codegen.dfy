/** The generator of nested byte-comparison harnesses, and what the programs it emits do. */
module Codegen {
  import opened Text

  datatype Name = EntryPoint | F(n: nat)

  datatype Branch = Call(name: Name) | Raise | Happy

  /** def name; if byte == letter then yes else no; end; end */
  datatype Def = Def(name: Name, letter: char, yes: Branch, no: Branch)

  /** A name as it stands in the emitted code. */
  function Rendered(name: Name): string {
    match name case EntryPoint => "entry_point" case F(n) => "f" + Digits(n)
  }

  /** Different names are rendered differently, and none as the name of the function that reads a byte. */
  lemma RenderedDistinct(a: Name, b: Name)
    ensures Rendered(a) == Rendered(b) <==> a == b
    ensures Rendered(a) != "byte"
  {
    if a.F? {
      DigitsRoundTrip(a.n);
      assert Rendered(a)[1..] == Digits(a.n) && Rendered(a)[0] == 'f';
    }
    if b.F? {
      DigitsRoundTrip(b.n);
      assert Rendered(b)[1..] == Digits(b.n) && Rendered(b)[0] == 'f';
    }
  }

  /** The emitted names: an `f` and a decimal numeral without leading zeros. */
  lemma RenderedIs(n: nat)
    ensures Rendered(EntryPoint) == "entry_point"
    ensures var s := Rendered(F(n)); s[0] == 'f' && IsNumeral(s[1..]) && DigitsValue(s[1..]) == n
  {
    assert Rendered(F(n))[1..] == Digits(n);
    DigitsCanonical(n);
    DigitsRoundTrip(n);
  }

  // ---------------------------------------------------------------- the generator

  /** The definitions for the given names, next free number `next`, and the names they call. The character drawn for the
      definition at position `i` of the whole output is `chars(i)`. */
  function Level(leaf: bool, names: seq<Name>, next: nat, chars: nat -> char, at: nat): (r: (seq<Def>, seq<Name>))
    ensures |r.0| == |names|
  {
    if names == [] then ([], [])
    else
      var (defs, called) := Level(leaf, names[..|names| - 1], next, chars, at);
      var last := |names| - 1;
      if leaf then (defs + [Def(names[last], chars(at + last), Raise, Happy)], called)
      else
        var t, f := F(next + 2 * last), F(next + 2 * last + 1);
        (defs + [Def(names[last], chars(at + last), Call(t), Call(f))], called + [t, f])
  }

  function DefTree(depth: nat, defs: seq<Def>, names: seq<Name>, next: nat, chars: nat -> char): seq<Def> {
    if depth == 0 then defs
    else
      var (more, called) := Level(depth == 1, names, next, chars, |defs|);
      DefTree(depth - 1, defs + more, called, if depth == 1 then next else next + 2 * |names|, chars)
  }

  function Generate(depth: nat, chars: nat -> char): seq<Def> {
    DefTree(depth, [], [EntryPoint], 0, chars)
  }

  /** The generator with its global counter, breadth first. */
  class Generator {
    var nextFNumber: nat

    constructor ()
      ensures nextFNumber == 0
    {
      nextFNumber := 0;
    }

    method DefTreeOfDepth(depth: nat, defNodes: seq<Def>, fNamesToDefine: seq<Name>, chars: nat -> char)
        returns (nodes: seq<Def>)
      modifies this
      ensures nodes == DefTree(depth, defNodes, fNamesToDefine, old(nextFNumber), chars)
      decreases depth
    {
      if depth == 0 {
        return defNodes;
      }
      var newDefNodes: seq<Def> := [];
      var newFNames: seq<Name> := [];
      ghost var start := nextFNumber;
      for i := 0 to |fNamesToDefine|
        invariant (newDefNodes, newFNames) == Level(depth == 1, fNamesToDefine[..i], start, chars, |defNodes|)
        invariant nextFNumber == if depth == 1 then start else start + 2 * i
      {
        assert fNamesToDefine[..i + 1][..i] == fNamesToDefine[..i];
        var letter := chars(|defNodes| + i);
        if depth > 1 {
          var trueName := F(nextFNumber);
          nextFNumber := nextFNumber + 1;
          var falseName := F(nextFNumber);
          nextFNumber := nextFNumber + 1;
          newDefNodes := newDefNodes + [Def(fNamesToDefine[i], letter, Call(trueName), Call(falseName))];
          newFNames := newFNames + [trueName, falseName];
        } else {
          newDefNodes := newDefNodes + [Def(fNamesToDefine[i], letter, Raise, Happy)];
        }
      }
      assert fNamesToDefine[..|fNamesToDefine|] == fNamesToDefine;
      nodes := DefTreeOfDepth(depth - 1, defNodes + newDefNodes, newFNames, chars);
    }

    method GenerateDefNodes(depth: nat, chars: nat -> char) returns (nodes: seq<Def>)
      requires nextFNumber == 0
      modifies this
      ensures nodes == Generate(depth, chars)
    {
      nodes := DefTreeOfDepth(depth, [], [EntryPoint], chars);
    }
  }

  // ---------------------------------------------------------------- the programs are heaps

  /** The name of the definition at position `i`. */
  function NameAt(i: nat): Name {
    if i == 0 then EntryPoint else F(i - 1)
  }

  /** The size of a complete heap that has `lo` nodes above the last `height` levels. */
  function SizeOf(lo: nat, height: nat): (size: nat)
    ensures size >= if height == 0 then lo else 2 * lo + 1
    decreases height
  {
    if height == 0 then lo else SizeOf(2 * lo + 1, height - 1)
  }

  lemma {:induction false} SizeIsPow2(level: nat, height: nat)
    ensures SizeOf(Pow2(level) - 1, height) == Pow2(level + height) - 1
    decreases height
  {
    if height > 0 {
      assert Pow2(level + 1) == 2 * Pow2(level);
      SizeIsPow2(level + 1, height - 1);
    }
  }

  /** Definition `i` of a complete program of the given size: the first half calls its two children in heap order, the
      rest ends the run. */
  function HeapDef(size: nat, i: nat, chars: nat -> char): Def {
    if 2 * i + 1 < size then Def(NameAt(i), chars(i), Call(NameAt(2 * i + 1)), Call(NameAt(2 * i + 2)))
    else Def(NameAt(i), chars(i), Raise, Happy)
  }

  ghost predicate IsHeap(defs: seq<Def>, size: nat, chars: nat -> char) {
    forall i | 0 <= i < |defs| :: defs[i] == HeapDef(size, i, chars)
  }

  function NamesFrom(i: nat, count: nat): (names: seq<Name>)
    ensures |names| == count
  {
    seq(count, j requires 0 <= j < count => NameAt(i + j))
  }

  lemma {:induction false} LevelOfHeap(leaf: bool, count: nat, lo: nat, chars: nat -> char)
    requires count <= lo + 1
    ensures var (defs, called) := Level(leaf, NamesFrom(lo, count), 2 * lo, chars, lo);
            && (forall j | 0 <= j < count :: defs[j] ==
                  if leaf then Def(NameAt(lo + j), chars(lo + j), Raise, Happy)
                  else Def(NameAt(lo + j), chars(lo + j), Call(NameAt(2 * (lo + j) + 1)),
                           Call(NameAt(2 * (lo + j) + 2))))
            && called == if leaf then [] else NamesFrom(2 * lo + 1, 2 * count)
  {
    if count > 0 {
      assert NamesFrom(lo, count)[..count - 1] == NamesFrom(lo, count - 1);
      LevelOfHeap(leaf, count - 1, lo, chars);
      var last := count - 1;
      assert F(2 * lo + 2 * last) == NameAt(2 * (lo + last) + 1);
      assert NamesFrom(2 * lo + 1, 2 * count) ==
             NamesFrom(2 * lo + 1, 2 * last) + [NameAt(2 * lo + 1 + 2 * last), NameAt(2 * lo + 1 + 2 * last + 1)];
    } else {
      assert NamesFrom(lo, count) == [];
      assert NamesFrom(2 * lo + 1, 2 * count) == [];
    }
  }

  lemma NextLevel(leaf: bool, defs: seq<Def>, lo: nat, size: nat, chars: nat -> char)
    requires |defs| == lo && IsHeap(defs, size, chars)
    requires if leaf then size == 2 * lo + 1 else size >= 4 * lo + 3
    ensures var (more, called) := Level(leaf, NamesFrom(lo, lo + 1), 2 * lo, chars, lo);
            && |defs + more| == 2 * lo + 1 && IsHeap(defs + more, size, chars)
            && (!leaf ==> called == NamesFrom(2 * lo + 1, 2 * lo + 2))
  {
    LevelOfHeap(leaf, lo + 1, lo, chars);
    var more := Level(leaf, NamesFrom(lo, lo + 1), 2 * lo, chars, lo).0;
    forall i | 0 <= i < |defs + more|
      ensures (defs + more)[i] == HeapDef(size, i, chars)
    {
      if i >= lo {
        assert (defs + more)[i] == more[i - lo];
      }
    }
  }

  lemma DefTreeStep(depth: nat, defs: seq<Def>, lo: nat, chars: nat -> char, more: seq<Def>, called: seq<Name>)
    requires depth > 0 && |defs| == lo
    requires (more, called) == Level(depth == 1, NamesFrom(lo, lo + 1), 2 * lo, chars, lo)
    ensures DefTree(depth, defs, NamesFrom(lo, lo + 1), 2 * lo, chars) ==
            if depth == 1 then defs + more else DefTree(depth - 1, defs + more, called, 4 * lo + 2, chars)
  {
  }

  /** With `lo` definitions emitted and the names of the next `lo + 1` to define, the rest of the heap follows. */
  ghost predicate HeapFollows(depth: nat, defs: seq<Def>, lo: nat, size: nat, chars: nat -> char) {
    var tree := DefTree(depth, defs, NamesFrom(lo, lo + 1), 2 * lo, chars);
    |tree| == size && IsHeap(tree, size, chars)
  }

  lemma LastLevel(defs: seq<Def>, lo: nat, size: nat, chars: nat -> char)
    requires |defs| == lo && size == 2 * lo + 1 && IsHeap(defs, size, chars)
    ensures HeapFollows(1, defs, lo, size, chars)
  {
    var (more, called) := Level(true, NamesFrom(lo, lo + 1), 2 * lo, chars, lo);
    NextLevel(true, defs, lo, size, chars);
    DefTreeStep(1, defs, lo, chars, more, called);
  }

  lemma InnerLevel(depth: nat, defs: seq<Def>, lo: nat, size: nat, chars: nat -> char) returns (more: seq<Def>)
    requires depth > 1 && |defs| == lo && size >= 4 * lo + 3 && IsHeap(defs, size, chars)
    ensures |more| == 2 * lo + 1 && IsHeap(more, size, chars)
    ensures HeapFollows(depth - 1, more, 2 * lo + 1, size, chars) ==> HeapFollows(depth, defs, lo, size, chars)
  {
    var (level, called) := Level(false, NamesFrom(lo, lo + 1), 2 * lo, chars, lo);
    NextLevel(false, defs, lo, size, chars);
    DefTreeStep(depth, defs, lo, chars, level, called);
    more := defs + level;
  }

  lemma {:induction false} DefTreeIsHeap(depth: nat, defs: seq<Def>, lo: nat, size: nat, chars: nat -> char)
    requires |defs| == lo && size == SizeOf(lo, depth) && IsHeap(defs, size, chars)
    ensures HeapFollows(depth, defs, lo, size, chars)
    decreases depth
  {
    if depth == 1 {
      LastLevel(defs, lo, size, chars);
    } else if depth > 1 {
      var more := InnerLevel(depth, defs, lo, size, chars);
      DefTreeIsHeap(depth - 1, more, 2 * lo + 1, size, chars);
    }
  }

  /** For every depth, and whatever characters are drawn, the output is the heap of 2^depth - 1 definitions. */
  lemma GeneratesHeap(depth: nat, chars: nat -> char)
    ensures |Generate(depth, chars)| == Pow2(depth) - 1
    ensures IsHeap(Generate(depth, chars), Pow2(depth) - 1, chars)
  {
    assert NamesFrom(0, 1) == [NameAt(0)];
    SizeIsPow2(0, depth);
    DefTreeIsHeap(depth, [], 0, Pow2(depth) - 1, chars);
  }

  /** Definition by definition: the first is the entry point and the i-th is f(i-1); in the first half the i-th calls
      f(2i) if the byte equals its character and f(2i+1) if not; in the rest it raises or returns the string. */
  lemma ProgramIs(depth: nat, chars: nat -> char, i: nat)
    requires i < |Generate(depth, chars)|
    ensures var d, size := Generate(depth, chars)[i], |Generate(depth, chars)|;
            && d.name == (if i == 0 then EntryPoint else F(i - 1)) && d.letter == chars(i)
            && d.yes == (if 2 * i + 1 < size then Call(F(2 * i)) else Raise)
            && d.no == (if 2 * i + 1 < size then Call(F(2 * i + 1)) else Happy)
  {
    GeneratesHeap(depth, chars);
  }

  /** How many branches of the program call a name. */
  function CallsTo(defs: seq<Def>, name: Name): nat {
    if defs == [] then 0
    else
      var d := defs[|defs| - 1];
      CallsTo(defs[..|defs| - 1], name) + (if d.yes == Call(name) then 1 else 0) + (if d.no == Call(name) then 1 else 0)
  }

  function DefsOf(defs: seq<Def>, name: Name): nat {
    if defs == [] then 0
    else DefsOf(defs[..|defs| - 1], name) + if defs[|defs| - 1].name == name then 1 else 0
  }

  lemma {:induction false} HeapDefsOf(defs: seq<Def>, size: nat, chars: nat -> char, i: nat)
    requires IsHeap(defs, size, chars)
    ensures DefsOf(defs, NameAt(i)) == if i < |defs| then 1 else 0
  {
    if defs != [] {
      HeapDefsOf(defs[..|defs| - 1], size, chars, i);
    }
  }

  lemma {:induction false} HeapCallsTo(defs: seq<Def>, size: nat, chars: nat -> char, i: nat)
    requires IsHeap(defs, size, chars) && |defs| <= size
    ensures CallsTo(defs, NameAt(i)) == if 0 < i && (i - 1) / 2 < |defs| && 2 * ((i - 1) / 2) + 1 < size then 1 else 0
  {
    if defs != [] {
      HeapCallsTo(defs[..|defs| - 1], size, chars, i);
    }
  }

  lemma HeapTreeShaped(defs: seq<Def>, chars: nat -> char, i: nat)
    requires IsHeap(defs, |defs|, chars) && |defs| % 2 == 1
    ensures DefsOf(defs, NameAt(i)) == if i < |defs| then 1 else 0
    ensures CallsTo(defs, NameAt(i)) == if 0 < i < |defs| then 1 else 0
  {
    HeapDefsOf(defs, |defs|, chars, i);
    HeapCallsTo(defs, |defs|, chars, i);
  }

  /** Every called name is defined exactly once, and every definition but the entry point is called exactly once. */
  lemma ClosedAndTreeShaped(depth: nat, chars: nat -> char, i: nat)
    requires depth >= 1
    ensures var defs := Generate(depth, chars);
            && DefsOf(defs, NameAt(i)) == (if i < |defs| then 1 else 0)
            && CallsTo(defs, NameAt(i)) == (if 0 < i < |defs| then 1 else 0)
  {
    GeneratesHeap(depth, chars);
    assert Pow2(depth) == 2 * Pow2(depth - 1);
    HeapTreeShaped(Generate(depth, chars), chars, i);
  }

  // ---------------------------------------------------------------- what the programs do

  datatype Outcome = Crash | Returned

  /** A finished run: how it ended, how many times it called `byte`, and in which definition it ended. */
  datatype Trace = Trace(outcome: Outcome, bytes: nat, at: Name)

  datatype Result = Finished(trace: Trace) | Stuck(name: Name) | OutOfFuel

  /** The position of the last definition of a name: a later `def` replaces an earlier one. */
  function Find(defs: seq<Def>, name: Name): (i: int)
    ensures -1 <= i < |defs|
    ensures i >= 0 ==> defs[i].name == name
    ensures forall j | i < j < |defs| :: defs[j].name != name
  {
    if defs == [] then -1
    else if defs[|defs| - 1].name == name then |defs| - 1
    else Find(defs[..|defs| - 1], name)
  }

  /** Calls `name`, reading the standard input from position `pos`; at the end of the input `byte` is nil, which is
      equal to no character. */
  function Exec(defs: seq<Def>, name: Name, input: string, pos: nat, fuel: nat): Result
    decreases fuel
  {
    if fuel == 0 then OutOfFuel
    else
      var i := Find(defs, name);
      if i < 0 then Stuck(name)
      else
        var equal := pos < |input| && input[pos] == defs[i].letter;
        match if equal then defs[i].yes else defs[i].no
        case Raise => Finished(Trace(Crash, 1, name))
        case Happy => Finished(Trace(Returned, 1, name))
        case Call(callee) =>
          match Exec(defs, callee, input, pos + 1, fuel - 1)
          case Finished(t) => Finished(t.(bytes := t.bytes + 1))
          case other => other
  }

  lemma HeapFind(defs: seq<Def>, size: nat, chars: nat -> char, i: nat)
    requires IsHeap(defs, size, chars) && i < |defs|
    ensures Find(defs, NameAt(i)) == i
  {
    assert defs[i].name == NameAt(i);
    var j := Find(defs, NameAt(i));
    assert j >= i && defs[j].name == NameAt(j);
  }

  /** The node a run goes to below node `i` when it reads at `pos`. */
  function Child(i: nat, chars: nat -> char, input: string, pos: nat): nat {
    if pos < |input| && input[pos] == chars(i) then 2 * i + 1 else 2 * i + 2
  }

  /** The same run in terms of positions in the heap. */
  function Climb(size: nat, chars: nat -> char, i: nat, input: string, pos: nat, fuel: nat): Result
    decreases fuel
  {
    if fuel == 0 then OutOfFuel
    else if 2 * i + 1 < size then
      match Climb(size, chars, Child(i, chars, input, pos), input, pos + 1, fuel - 1)
      case Finished(t) => Finished(t.(bytes := t.bytes + 1))
      case other => other
    else Finished(Trace(if pos < |input| && input[pos] == chars(i) then Crash else Returned, 1, NameAt(i)))
  }

  lemma {:induction false} ExecIsClimb(defs: seq<Def>, chars: nat -> char, i: nat, input: string, pos: nat, fuel: nat)
    requires IsHeap(defs, |defs|, chars) && i < |defs| && |defs| % 2 == 1
    ensures Exec(defs, NameAt(i), input, pos, fuel) == Climb(|defs|, chars, i, input, pos, fuel)
    decreases fuel
  {
    if fuel > 0 {
      HeapFind(defs, |defs|, chars, i);
      assert defs[i] == HeapDef(|defs|, i, chars);
      if 2 * i + 1 < |defs| {
        ExecIsClimb(defs, chars, Child(i, chars, input, pos), input, pos + 1, fuel - 1);
      }
    }
  }

  /** The node reached after `n` comparisons starting from node `i`. */
  function Descend(i: nat, chars: nat -> char, input: string, pos: nat, n: nat): nat
    decreases n
  {
    if n == 0 then i else Descend(Child(i, chars, input, pos), chars, input, pos + 1, n - 1)
  }

  /** From a node with `height` levels at and below it, a run reads once per level and ends at the leaf its comparisons
      lead to, crashing there exactly if the last comparison succeeds. */
  lemma {:induction false} ClimbEnds(size: nat, chars: nat -> char, height: nat, i: nat, lo: nat, input: string,
                                     pos: nat, fuel: nat)
    requires height >= 1 && fuel >= height && lo <= i <= 2 * lo && size == SizeOf(lo, height)
    ensures var r := Climb(size, chars, i, input, pos, fuel);
            var leaf := Descend(i, chars, input, pos, height - 1);
            && r.Finished? && r.trace.bytes == height && r.trace.at == NameAt(leaf)
            && (r.trace.outcome == Crash <==> pos + height - 1 < |input| && input[pos + height - 1] == chars(leaf))
    decreases height
  {
    if height > 1 {
      ClimbEnds(size, chars, height - 1, Child(i, chars, input, pos), 2 * lo + 1, input, pos + 1, fuel - 1);
    }
  }

  /** How a generated program runs on an input. */
  lemma ProgramEnds(depth: nat, chars: nat -> char, input: string, fuel: nat)
    requires 1 <= depth <= fuel
    ensures var r := Exec(Generate(depth, chars), EntryPoint, input, 0, fuel);
            var leaf := Descend(0, chars, input, 0, depth - 1);
            && r.Finished? && r.trace.bytes == depth && r.trace.at == NameAt(leaf)
            && (r.trace.outcome == Crash <==> depth <= |input| && input[depth - 1] == chars(leaf))
  {
    GeneratesHeap(depth, chars);
    SizeIsPow2(0, depth);
    assert Pow2(depth) == 2 * Pow2(depth - 1);
    ExecIsClimb(Generate(depth, chars), chars, 0, input, 0, fuel);
    ClimbEnds(Pow2(depth) - 1, chars, depth, 0, 0, input, 0, fuel);
  }

  /** A generated program of depth `d` reads exactly `d` times on any input, however short, and never calls an undefined
      name: it always ends in a crash or by returning the string. */
  lemma AlwaysExactReads(depth: nat, chars: nat -> char, input: string)
    requires depth >= 1
    ensures forall fuel: nat | fuel >= depth ::
              var r := Exec(Generate(depth, chars), EntryPoint, input, 0, fuel);
              r.Finished? && r.trace.bytes == depth
  {
    forall fuel: nat | fuel >= depth
      ensures var r := Exec(Generate(depth, chars), EntryPoint, input, 0, fuel);
              r.Finished? && r.trace.bytes == depth
    {
      ProgramEnds(depth, chars, input, fuel);
    }
  }

  /** A character other than the given one. */
  function Other(c: char): (d: char)
    ensures d != c
  {
    if c == 'x' then 'y' else 'x'
  }

  /** An input that leads from the root to node `i`. */
  function PathTo(i: nat, chars: nat -> char): string {
    if i == 0 then ""
    else
      var parent := (i - 1) / 2;
      PathTo(parent, chars) + [if i == 2 * parent + 1 then chars(parent) else Other(chars(parent))]
  }

  /** Descending splits at any point. */
  lemma {:induction false} DescendSnoc(i: nat, chars: nat -> char, input: string, pos: nat, n: nat)
    ensures Descend(i, chars, input, pos, n + 1) == Child(Descend(i, chars, input, pos, n), chars, input, pos + n)
    decreases n
  {
    if n > 0 {
      DescendSnoc(Child(i, chars, input, pos), chars, input, pos + 1, n - 1);
    }
  }

  lemma {:induction false} DescendPrefix(i: nat, chars: nat -> char, a: string, b: string, pos: nat, n: nat)
    requires pos + n <= |a| && a <= b
    ensures Descend(i, chars, a, pos, n) == Descend(i, chars, b, pos, n)
    decreases n
  {
    if n > 0 {
      DescendPrefix(Child(i, chars, a, pos), chars, a, b, pos + 1, n - 1);
    }
  }

  lemma {:induction false} PathLeads(i: nat, chars: nat -> char, level: nat)
    requires Pow2(level) - 1 <= i < Pow2(level + 1) - 1
    ensures |PathTo(i, chars)| == level && Descend(0, chars, PathTo(i, chars), 0, level) == i
    decreases i
  {
    if level > 0 {
      var parent := (i - 1) / 2;
      assert Pow2(level) == 2 * Pow2(level - 1) && Pow2(level + 1) == 2 * Pow2(level);
      PathLeads(parent, chars, level - 1);
      DescendPrefix(0, chars, PathTo(parent, chars), PathTo(i, chars), 0, level - 1);
      DescendSnoc(0, chars, PathTo(i, chars), 0, level - 1);
    }
  }

  /** Every one of the 2^(depth-1) leaf definitions has an input that leads the program to it and crashes there. */
  lemma EveryCrashReachable(depth: nat, chars: nat -> char, leaf: nat)
    requires depth >= 1 && Pow2(depth - 1) - 1 <= leaf < Pow2(depth) - 1
    ensures var r := Exec(Generate(depth, chars), EntryPoint, PathTo(leaf, chars) + [chars(leaf)], 0, depth);
            r.Finished? && r.trace.outcome == Crash && r.trace.at == NameAt(leaf)
  {
    var input := PathTo(leaf, chars) + [chars(leaf)];
    PathLeads(leaf, chars, depth - 1);
    DescendPrefix(0, chars, PathTo(leaf, chars), input, 0, depth - 1);
    ProgramEnds(depth, chars, input, depth);
  }

  /** And conversely a crash always happens at a leaf, on reading that leaf's character. */
  lemma CrashesOnlyAtLeaves(depth: nat, chars: nat -> char, input: string)
    requires depth >= 1
    ensures var r := Exec(Generate(depth, chars), EntryPoint, input, 0, depth);
            var leaf := Descend(0, chars, input, 0, depth - 1);
            && r.Finished? && r.trace.at == NameAt(leaf)
            && Pow2(depth - 1) - 1 <= leaf < Pow2(depth) - 1
            && (r.trace.outcome == Crash <==> depth <= |input| && input[depth - 1] == chars(leaf))
  {
    ProgramEnds(depth, chars, input, depth);
    DescendLevel(chars, input, depth - 1);
  }

  lemma {:induction false} DescendLevel(chars: nat -> char, input: string, n: nat)
    ensures Pow2(n) - 1 <= Descend(0, chars, input, 0, n) < Pow2(n + 1) - 1
  {
    assert Pow2(n + 1) == 2 * Pow2(n);
    if n > 0 {
      DescendLevel(chars, input, n - 1);
      DescendSnoc(0, chars, input, 0, n - 1);
      assert Pow2(n) == 2 * Pow2(n - 1);
    }
  }
}
