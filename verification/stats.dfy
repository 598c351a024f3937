/** The parser of AFL's `fuzzer_stats` file. */
module Stats {
  import opened Text

  /** Floating-point fields hold the exact value of the decimal that was read. */
  datatype FuzzerStats = FuzzerStats(
    StartTime: nat, LastUpdate: nat, FuzzerPid: nat, CyclesDone: nat, ExecsDone: nat, ExecsPerSec: real,
    PathsTotal: nat, PathsFavored: nat, PathsFound: nat, PathsImported: nat, MaxDepth: nat, CurPath: nat,
    PendingFavs: nat, PendingTotal: nat, VariablePaths: nat, BitmapCvg: real, UniqueCrashes: nat, UniqueHangs: nat,
    LastPath: nat, LastCrash: nat, LastHang: nat, ExecTimeout: nat, AflBanner: string, AflVersion: string,
    CommandLine: string)

  const FIELDS: nat := 25

  /** The keys, in the order of the bits that stand for them. */
  const KEYS: seq<string> := [
    "start_time", "last_update", "fuzzer_pid", "cycles_done", "execs_done", "execs_per_sec", "paths_total",
    "paths_favored", "paths_found", "paths_imported", "max_depth", "cur_path", "pending_favs", "pending_total",
    "variable_paths", "bitmap_cvg", "unique_crashes", "unique_hangs", "last_path", "last_crash", "last_hang",
    "exec_timeout", "afl_banner", "afl_version", "command_line"]

  /** The bit a key stands for, or `FIELDS` for an unknown key. */
  function FieldOf(key: string): (i: nat)
    ensures i <= FIELDS
  {
    match key
    case "start_time" => 0
    case "last_update" => 1
    case "fuzzer_pid" => 2
    case "cycles_done" => 3
    case "execs_done" => 4
    case "execs_per_sec" => 5
    case "paths_total" => 6
    case "paths_favored" => 7
    case "paths_found" => 8
    case "paths_imported" => 9
    case "max_depth" => 10
    case "cur_path" => 11
    case "pending_favs" => 12
    case "pending_total" => 13
    case "variable_paths" => 14
    case "bitmap_cvg" => 15
    case "unique_crashes" => 16
    case "unique_hangs" => 17
    case "last_path" => 18
    case "last_crash" => 19
    case "last_hang" => 20
    case "exec_timeout" => 21
    case "afl_banner" => 22
    case "afl_version" => 23
    case "command_line" => 24
    case _ => FIELDS
  }

  datatype Value = Num(n: nat) | Frac(x: real) | Str(s: string)

  datatype ValueKind = Uint | Float | Percent | Text

  function KindOf(i: nat): ValueKind {
    if i == 5 then Float else if i == 15 then Percent else if 22 <= i then Text else Uint
  }

  predicate OfKind(v: Value, kind: ValueKind) {
    match kind
    case Uint => v.Num?
    case Float => v.Frac?
    case Percent => v.Frac?
    case Text => v.Str?
  }

  ghost predicate WellKinded(values: seq<Value>) {
    |values| == FIELDS && forall i | 0 <= i < FIELDS :: OfKind(values[i], KindOf(i))
  }

  function Zero(kind: ValueKind): Value {
    match kind
    case Uint => Num(0)
    case Float => Frac(0.0)
    case Percent => Frac(0.0)
    case Text => Str("")
  }

  function Pack(v: seq<Value>): FuzzerStats
    requires WellKinded(v)
  {
    FuzzerStats(v[0].n, v[1].n, v[2].n, v[3].n, v[4].n, v[5].x, v[6].n, v[7].n, v[8].n, v[9].n, v[10].n, v[11].n,
                v[12].n, v[13].n, v[14].n, v[15].x, v[16].n, v[17].n, v[18].n, v[19].n, v[20].n, v[21].n, v[22].s,
                v[23].s, v[24].s)
  }

  /** The fields by bit number. */
  function Unpack(s: FuzzerStats): (v: seq<Value>)
    ensures |v| == FIELDS
  {
    [Num(s.StartTime), Num(s.LastUpdate), Num(s.FuzzerPid), Num(s.CyclesDone), Num(s.ExecsDone), Frac(s.ExecsPerSec),
     Num(s.PathsTotal), Num(s.PathsFavored), Num(s.PathsFound), Num(s.PathsImported), Num(s.MaxDepth), Num(s.CurPath),
     Num(s.PendingFavs), Num(s.PendingTotal), Num(s.VariablePaths), Frac(s.BitmapCvg), Num(s.UniqueCrashes),
     Num(s.UniqueHangs), Num(s.LastPath), Num(s.LastCrash), Num(s.LastHang), Num(s.ExecTimeout), Str(s.AflBanner),
     Str(s.AflVersion), Str(s.CommandLine)]
  }

  lemma UnpackPack(v: seq<Value>)
    requires WellKinded(v)
    ensures Unpack(Pack(v)) == v
  {
  }

  lemma PackUnpack(s: FuzzerStats)
    ensures WellKinded(Unpack(s)) && Pack(Unpack(s)) == s
  {
  }

  // ---------------------------------------------------------------- the bitmask

  /** `mask | 1 << i` */
  function SetBit(mask: nat, i: nat): nat {
    if i == 0 then (if mask % 2 == 1 then mask else mask + 1) else mask % 2 + 2 * SetBit(mask / 2, i - 1)
  }

  /** The mask whose bit `i` is `bits[i]`. */
  function MaskOf(bits: seq<bool>): nat {
    if bits == [] then 0 else (if bits[0] then 1 else 0) + 2 * MaskOf(bits[1..])
  }

  lemma {:induction false} SetBitOfMask(bits: seq<bool>, i: nat)
    requires i < |bits|
    ensures SetBit(MaskOf(bits), i) == MaskOf(bits[i := true])
  {
    if i > 0 {
      assert bits[i := true][1..] == bits[1..][i - 1 := true];
      SetBitOfMask(bits[1..], i - 1);
    } else {
      assert bits[0 := true][1..] == bits[1..];
    }
  }

  lemma {:induction false} NoBits(bits: seq<bool>)
    requires forall i | 0 <= i < |bits| :: !bits[i]
    ensures MaskOf(bits) == 0
  {
    if bits != [] {
      NoBits(bits[1..]);
    }
  }

  /** A mask is all ones exactly when every bit is set. */
  lemma {:induction false} FullMask(bits: seq<bool>)
    ensures MaskOf(bits) <= Pow2(|bits|) - 1
    ensures MaskOf(bits) == Pow2(|bits|) - 1 <==> forall i | 0 <= i < |bits| :: bits[i]
  {
    if bits != [] {
      FullMask(bits[1..]);
      assert forall i | 1 <= i < |bits| :: bits[i] == bits[1..][i - 1];
      assert forall i | 0 <= i < |bits[1..]| :: bits[1..][i] == bits[i + 1];
    }
  }

  lemma FiveDoublings(n: nat)
    ensures Pow2(n + 5) == 32 * Pow2(n)
  {
    assert Pow2(n + 1) == 2 * Pow2(n) && Pow2(n + 2) == 2 * Pow2(n + 1) && Pow2(n + 3) == 2 * Pow2(n + 2);
    assert Pow2(n + 4) == 2 * Pow2(n + 3) && Pow2(n + 5) == 2 * Pow2(n + 4);
  }

  const ALL_COVERED: nat := 33554431

  lemma AllCovered(bits: seq<bool>)
    requires |bits| == FIELDS
    ensures MaskOf(bits) == ALL_COVERED <==> forall i | 0 <= i < FIELDS :: bits[i]
  {
    FullMask(bits);
    FiveDoublings(0);
    FiveDoublings(5);
    FiveDoublings(10);
    FiveDoublings(15);
    FiveDoublings(20);
  }

  // ---------------------------------------------------------------- lines

  type FloatReader = string -> Option<real>

  /** What a line is to the parser; `text` is the trimmed value of a recognised key. */
  datatype Line = Blank | NoColon | Unknown | Known(field: nat, text: string)

  function LineOf(line: string): (r: Line)
    ensures r.Known? ==> r.field < FIELDS
  {
    if line == "" then Blank
    else
      var colon := IndexOf(line, ':');
      if colon == |line| then NoColon
      else
        var field := FieldOf(Trim(line[..colon], ' '));
        if field == FIELDS then Unknown else Known(field, Trim(line[colon + 1..], ' '))
  }

  function Lines(raw: seq<string>): (lines: seq<Line>)
    ensures |lines| == |raw|
  {
    seq(|raw|, i requires 0 <= i < |raw| => LineOf(raw[i]))
  }

  /** The key of a line with a colon, and the value that stands after the first colon. */
  function KeyText(line: string): string {
    Trim(line[..IndexOf(line, ':')], ' ')
  }

  function ValueAfter(line: string): string
    requires ':' in line
  {
    Trim(line[IndexOf(line, ':') + 1..], ' ')
  }

  lemma ColonFound(line: string)
    ensures ':' in line <==> IndexOf(line, ':') < |line|
  {
    if ':' in line {
      var i :| 0 <= i < |line| && line[i] == ':';
    }
  }

  lemma FieldOfKeys(key: string)
    ensures FieldOf(key) < FIELDS ==> KEYS[FieldOf(key)] == key
  {
  }

  lemma KnownKeys(key: string)
    ensures key in KEYS <==> FieldOf(key) < FIELDS
  {
    FieldOfKeys(key);
    if key in KEYS {
      var i :| 0 <= i < FIELDS && KEYS[i] == key;
      KeyFacts(i);
    }
  }

  /** What each line is, from its text: only the empty one is blank, one without a colon stops the parser, and otherwise
      the text before the first colon decides. */
  lemma LineOfText(line: string)
    ensures line == "" <==> LineOf(line).Blank?
    ensures line != "" && ':' !in line <==> LineOf(line).NoColon?
    ensures ':' in line && KeyText(line) !in KEYS <==> LineOf(line).Unknown?
    ensures ':' in line && KeyText(line) in KEYS ==>
              && LineOf(line) == Known(FieldOf(KeyText(line)), ValueAfter(line))
              && KEYS[FieldOf(KeyText(line))] == KeyText(line)
  {
    ColonFound(line);
    KnownKeys(KeyText(line));
    FieldOfKeys(KeyText(line));
  }

  /** A line of an unknown key, with any padding and any value, colons included. */
  lemma UnknownLine(key: string, n: nat, value: string)
    requires key !in KEYS && Trimmed(key, ' ') && ':' !in key
    ensures LineOf(key + Repeat(' ', n) + ":" + value) == Unknown
  {
    var line, padded := key + Repeat(' ', n) + ":" + value, key + Repeat(' ', n);
    assert line == padded + [':'] + value;
    IndexAfter(padded, ':', value);
    assert line[..|padded|] == padded && line[|padded|] == ':';
    TrimPadRight(key, n, ' ');
    LineOfText(line);
  }

  function ReadValue(kind: ValueKind, text: string, parseFloat: FloatReader): (v: Option<Value>)
    ensures v.Some? ==> OfKind(v.value, kind)
  {
    match kind
    case Uint => var n := ParseUint(text); if n.Some? then Some(Num(n.value)) else None
    case Float => var x := parseFloat(text); if x.Some? then Some(Frac(x.value)) else None
    case Percent => var x := parseFloat(Trim(text, '%')); if x.Some? then Some(Frac(x.value)) else None
    case Text => Some(Str(text))
  }

  /** A line that stops the parser. */
  predicate Offends(line: Line, parseFloat: FloatReader) {
    line.NoColon? || (line.Known? && ReadValue(KindOf(line.field), line.text, parseFloat).None?)
  }

  /** The value text of the last line for a field. */
  function LastText(lines: seq<Line>, field: nat): Option<string> {
    if lines == [] then None
    else
      var last := lines[|lines| - 1];
      if last.Known? && last.field == field then Some(last.text) else LastText(lines[..|lines| - 1], field)
  }

  /** The parser's results. Indexing past the end of a split line panics. */
  datatype Result = Parsed(stats: FuzzerStats) | InvalidValue(field: nat, text: string) | MissingFields | Panic

  /** What a field holds once the lines so far are parsed. */
  function Held(lines: seq<Line>, field: nat, parseFloat: FloatReader): Value {
    var text := LastText(lines, field);
    if text.None? then Zero(KindOf(field))
    else
      var v := ReadValue(KindOf(field), text.value, parseFloat);
      if v.Some? then v.value else Zero(KindOf(field))
  }

  function Covered(lines: seq<Line>): (bits: seq<bool>)
    ensures |bits| == FIELDS
  {
    seq(FIELDS, i requires 0 <= i < FIELDS => LastText(lines, i).Some?)
  }

  lemma {:induction false} LastTextFieldRange(lines: seq<Line>, field: nat)
    ensures LastText(lines, field).Some? <==> exists j | 0 <= j < |lines| :: lines[j].Known? && lines[j].field == field
  {
    if lines != [] {
      var front, last := lines[..|lines| - 1], lines[|lines| - 1];
      LastTextFieldRange(front, field);
      if j :| 0 <= j < |front| && front[j].Known? && front[j].field == field {
        assert lines[j] == front[j];
      }
      if last.Known? && last.field == field {
        assert lines[|lines| - 1] == last;
      }
    }
  }

  /** Parsing one more line that does not offend: only the field it names changes, to that line's value. */
  lemma HeldSnoc(lines: seq<Line>, line: Line, field: nat, parseFloat: FloatReader)
    ensures LastText(lines + [line], field) ==
            if line.Known? && line.field == field then Some(line.text) else LastText(lines, field)
    ensures Held(lines + [line], field, parseFloat) ==
            if line.Known? && line.field == field then
              var v := ReadValue(KindOf(field), line.text, parseFloat);
              if v.Some? then v.value else Zero(KindOf(field))
            else Held(lines, field, parseFloat)
  {
    assert (lines + [line])[..|lines|] == lines;
  }

  lemma CoveredSnoc(lines: seq<Line>, line: Line)
    requires line.Known? ==> line.field < FIELDS
    ensures Covered(lines + [line]) == if line.Known? then Covered(lines)[line.field := true] else Covered(lines)
  {
    assert (lines + [line])[..|lines|] == lines;
  }

  /** The position of the first offending line, or the number of lines. */
  function FirstOffence(lines: seq<Line>, parseFloat: FloatReader): (j: nat)
    ensures j <= |lines| && (j < |lines| ==> Offends(lines[j], parseFloat))
    ensures forall i | 0 <= i < j :: !Offends(lines[i], parseFloat)
  {
    if lines == [] || Offends(lines[0], parseFloat) then 0 else 1 + FirstOffence(lines[1..], parseFloat)
  }

  lemma FirstOffenceIsThe(lines: seq<Line>, parseFloat: FloatReader, j: nat)
    requires j <= |lines| && (j < |lines| ==> Offends(lines[j], parseFloat))
    requires forall i | 0 <= i < j :: !Offends(lines[i], parseFloat)
    ensures FirstOffence(lines, parseFloat) == j
  {
  }

  /** The text handed to the numeric conversion. */
  function Converted(line: Line): string
    requires line.Known?
  {
    if KindOf(line.field) == Percent then Trim(line.text, '%') else line.text
  }

  function AllHeld(lines: seq<Line>, parseFloat: FloatReader): (values: seq<Value>)
    ensures WellKinded(values)
  {
    seq(FIELDS, i requires 0 <= i < FIELDS => Held(lines, i, parseFloat))
  }

  /** What parsing these lines gives: the first offending line decides; otherwise the record of the last values, if
      every key occurs. */
  function Verdict(lines: seq<Line>, parseFloat: FloatReader): Result {
    var j := FirstOffence(lines, parseFloat);
    if j < |lines| then if lines[j].NoColon? then Panic else InvalidValue(lines[j].field, Converted(lines[j]))
    else if AllOccur(lines) then Parsed(Pack(AllHeld(lines, parseFloat)))
    else MissingFields
  }

  predicate AllOccur(lines: seq<Line>) {
    forall i | 0 <= i < FIELDS :: LastText(lines, i).Some?
  }

  lemma VerdictAt(lines: seq<Line>, parseFloat: FloatReader, j: nat)
    requires j < |lines| && Offends(lines[j], parseFloat)
    requires forall i | 0 <= i < j :: !Offends(lines[i], parseFloat)
    ensures Verdict(lines, parseFloat) ==
            if lines[j].NoColon? then Panic else InvalidValue(lines[j].field, Converted(lines[j]))
  {
    FirstOffenceIsThe(lines, parseFloat, j);
  }

  lemma VerdictAtEnd(lines: seq<Line>, parseFloat: FloatReader)
    requires forall i | 0 <= i < |lines| :: !Offends(lines[i], parseFloat)
    ensures Verdict(lines, parseFloat) ==
            if MaskOf(Covered(lines)) == ALL_COVERED then Parsed(Pack(AllHeld(lines, parseFloat))) else MissingFields
    ensures MaskOf(Covered(lines)) == ALL_COVERED <==> AllOccur(lines)
  {
    FirstOffenceIsThe(lines, parseFloat, |lines|);
    AllCovered(Covered(lines));
    var bits := Covered(lines);
    assert forall i | 0 <= i < FIELDS :: bits[i] == LastText(lines, i).Some?;
  }

  /** The parser's state after one more line that does not offend. */
  lemma OneMoreLine(lines: seq<Line>, line: Line, parseFloat: FloatReader)
    requires line.Known? ==> line.field < FIELDS
    ensures !line.Known? ==>
              && Covered(lines + [line]) == Covered(lines)
              && AllHeld(lines + [line], parseFloat) == AllHeld(lines, parseFloat)
    ensures line.Known? && !Offends(line, parseFloat) ==>
              && MaskOf(Covered(lines + [line])) == SetBit(MaskOf(Covered(lines)), line.field)
              && AllHeld(lines + [line], parseFloat) ==
                 AllHeld(lines, parseFloat)[line.field := ReadValue(KindOf(line.field), line.text, parseFloat).value]
  {
    CoveredSnoc(lines, line);
    AllHeldSnoc(lines, line, parseFloat);
    if line.Known? {
      SetBitOfMask(Covered(lines), line.field);
    }
  }

  method ParseStats(stats: string, parseFloat: FloatReader) returns (r: Result)
    ensures r == Verdict(Lines(Split(stats, '\n')), parseFloat)
  {
    r := ParseLines(Lines(Split(stats, '\n')), parseFloat);
  }

  /** The loop of the parser, on lines already taken apart. */
  method ParseLines(lines: seq<Line>, parseFloat: FloatReader) returns (r: Result)
    requires forall i | 0 <= i < |lines| :: lines[i].Known? ==> lines[i].field < FIELDS
    ensures r == Verdict(lines, parseFloat)
  {
    var fieldsCovered: nat := 0;
    var values := seq(FIELDS, i requires 0 <= i < FIELDS => Zero(KindOf(i)));
    ghost var seen: seq<Line> := [];
    NoBits(Covered([]));
    for k := 0 to |lines|
      invariant |seen| == k && seen <= lines
      invariant values == AllHeld(seen, parseFloat)
      invariant fieldsCovered == MaskOf(Covered(seen))
      invariant forall i | 0 <= i < k :: !Offends(lines[i], parseFloat)
    {
      var line := lines[k];
      OneMoreLine(seen, line, parseFloat);
      seen := seen + [line];
      match line {
        case Blank =>
        case NoColon =>
          VerdictAt(lines, parseFloat, k);
          return Panic;
        case Unknown =>
        case Known(field, value) =>
          var v := ReadValue(KindOf(field), value, parseFloat);
          fieldsCovered := SetBit(fieldsCovered, field);
          if v.None? {
            VerdictAt(lines, parseFloat, k);
            return InvalidValue(field, Converted(line));
          }
          values := values[field := v.value];
      }
    }
    assert seen == lines;
    VerdictAtEnd(lines, parseFloat);
    if fieldsCovered != ALL_COVERED {
      return MissingFields;
    }
    r := Parsed(Pack(values));
  }

  lemma AllHeldSnoc(lines: seq<Line>, line: Line, parseFloat: FloatReader)
    requires line.Known? ==> line.field < FIELDS
    ensures AllHeld(lines + [line], parseFloat) ==
            if line.Known? then
              var v := ReadValue(KindOf(line.field), line.text, parseFloat);
              AllHeld(lines, parseFloat)[line.field := if v.Some? then v.value else Zero(KindOf(line.field))]
            else AllHeld(lines, parseFloat)
  {
    forall i | 0 <= i < FIELDS {
      HeldSnoc(lines, line, i, parseFloat);
    }
  }

  lemma LastTextReads(lines: seq<Line>, parseFloat: FloatReader, i: nat)
    requires i < FIELDS && LastText(lines, i).Some?
    requires forall j | 0 <= j < |lines| :: !Offends(lines[j], parseFloat)
    ensures Some(Held(lines, i, parseFloat)) == ReadValue(KindOf(i), LastText(lines, i).value, parseFloat)
  {
    var m := LastTextIsALine(lines, i);
  }

  /** Every field is what the last line with its key says. */
  ghost predicate HasLastValues(stats: FuzzerStats, lines: seq<Line>, parseFloat: FloatReader) {
    var values := Unpack(stats);
    forall i | 0 <= i < FIELDS ::
      && LastText(lines, i).Some?
      && ReadValue(KindOf(i), LastText(lines, i).value, parseFloat) == Some(values[i])
  }

  lemma PackedLastValues(lines: seq<Line>, parseFloat: FloatReader)
    requires forall j | 0 <= j < |lines| :: !Offends(lines[j], parseFloat)
    requires AllOccur(lines)
    ensures HasLastValues(Pack(AllHeld(lines, parseFloat)), lines, parseFloat)
  {
    UnpackPack(AllHeld(lines, parseFloat));
    forall i | 0 <= i < FIELDS
      ensures Some(AllHeld(lines, parseFloat)[i]) == ReadValue(KindOf(i), LastText(lines, i).value, parseFloat)
    {
      LastTextReads(lines, parseFloat, i);
    }
  }

  /** The parser succeeds exactly when every line has a colon or is empty, every value of a numeric key parses, and all
      25 keys occur; each field is then what the last line with its key says. */
  lemma ParsesLastOccurrences(lines: seq<Line>, parseFloat: FloatReader)
    ensures Verdict(lines, parseFloat).Parsed? <==>
              && (forall i | 0 <= i < |lines| :: !Offends(lines[i], parseFloat))
              && AllOccur(lines)
    ensures Verdict(lines, parseFloat).Parsed? ==>
              HasLastValues(Verdict(lines, parseFloat).stats, lines, parseFloat)
  {
    var j := FirstOffence(lines, parseFloat);
    if j < |lines| {
      VerdictAt(lines, parseFloat, j);
    } else {
      VerdictAtEnd(lines, parseFloat);
      if AllOccur(lines) {
        PackedLastValues(lines, parseFloat);
      }
    }
  }

  lemma {:induction false} LastTextIsALine(lines: seq<Line>, field: nat) returns (m: nat)
    requires LastText(lines, field).Some?
    ensures m < |lines| && lines[m] == Known(field, LastText(lines, field).value)
  {
    m := |lines| - 1;
    if !(lines[m].Known? && lines[m].field == field) {
      m := LastTextIsALine(lines[..m], field);
    }
  }

  // ---------------------------------------------------------------- from the text of the file

  /** The value of the last line with a key. */
  function LastValue(raw: seq<string>, key: string): Option<string> {
    if raw == [] then None
    else
      var last := raw[|raw| - 1];
      if ':' in last && KeyText(last) == key then Some(ValueAfter(last)) else LastValue(raw[..|raw| - 1], key)
  }

  lemma {:induction false} LastTextIsLastValue(raw: seq<string>, key: string)
    requires key in KEYS
    ensures FieldOf(key) < FIELDS && LastText(Lines(raw), FieldOf(key)) == LastValue(raw, key)
  {
    KnownKeys(key);
    FieldOfKeys(key);
    if raw != [] {
      var front, last := raw[..|raw| - 1], raw[|raw| - 1];
      LastTextIsLastValue(front, key);
      assert Lines(raw)[..|raw| - 1] == Lines(front);
      LineOfText(last);
    }
  }

  /** Whether the last line with a key gives this value. */
  predicate GivesUint(raw: seq<string>, key: string, n: nat) {
    var text := LastValue(raw, key); text.Some? && ParseUint(text.value) == Some(n)
  }

  predicate GivesFloat(raw: seq<string>, key: string, x: real, parseFloat: FloatReader) {
    var text := LastValue(raw, key); text.Some? && parseFloat(text.value) == Some(x)
  }

  predicate GivesPercent(raw: seq<string>, key: string, x: real, parseFloat: FloatReader) {
    var text := LastValue(raw, key); text.Some? && parseFloat(Trim(text.value, '%')) == Some(x)
  }

  predicate GivesText(raw: seq<string>, key: string, s: string) {
    LastValue(raw, key) == Some(s)
  }

  /** What the value of bit `i` is, read from the text. */
  ghost predicate GivesField(raw: seq<string>, i: nat, v: Value, parseFloat: FloatReader)
    requires i < FIELDS
  {
    OfKind(v, KindOf(i)) &&
    match KindOf(i)
    case Uint => GivesUint(raw, KEYS[i], v.n)
    case Float => GivesFloat(raw, KEYS[i], v.x, parseFloat)
    case Percent => GivesPercent(raw, KEYS[i], v.x, parseFloat)
    case Text => GivesText(raw, KEYS[i], v.s)
  }

  lemma FieldGiven(raw: seq<string>, stats: FuzzerStats, parseFloat: FloatReader, i: nat)
    requires i < FIELDS && HasLastValues(stats, Lines(raw), parseFloat)
    ensures GivesField(raw, i, Unpack(stats)[i], parseFloat)
  {
    KeyFacts(i);
    PackUnpack(stats);
    assert KEYS[i] in KEYS;
    LastTextIsLastValue(raw, KEYS[i]);
  }

  // Every field of the record by the name of its key: the value of the last line with that key.

  ghost predicate ExecutionFromText(stats: FuzzerStats, raw: seq<string>, parseFloat: FloatReader) {
    && GivesUint(raw, "start_time", stats.StartTime)
    && GivesUint(raw, "last_update", stats.LastUpdate)
    && GivesUint(raw, "fuzzer_pid", stats.FuzzerPid)
    && GivesUint(raw, "cycles_done", stats.CyclesDone)
    && GivesUint(raw, "execs_done", stats.ExecsDone)
    && GivesFloat(raw, "execs_per_sec", stats.ExecsPerSec, parseFloat)
    && GivesUint(raw, "exec_timeout", stats.ExecTimeout)
  }

  ghost predicate PathsFromText(stats: FuzzerStats, raw: seq<string>, parseFloat: FloatReader) {
    && GivesUint(raw, "paths_total", stats.PathsTotal)
    && GivesUint(raw, "paths_favored", stats.PathsFavored)
    && GivesUint(raw, "paths_found", stats.PathsFound)
    && GivesUint(raw, "paths_imported", stats.PathsImported)
    && GivesUint(raw, "max_depth", stats.MaxDepth)
  }

  ghost predicate PendingFromText(stats: FuzzerStats, raw: seq<string>, parseFloat: FloatReader) {
    && GivesUint(raw, "cur_path", stats.CurPath)
    && GivesUint(raw, "pending_favs", stats.PendingFavs)
    && GivesUint(raw, "pending_total", stats.PendingTotal)
    && GivesUint(raw, "variable_paths", stats.VariablePaths)
    && GivesPercent(raw, "bitmap_cvg", stats.BitmapCvg, parseFloat)
  }

  ghost predicate FindingsFromText(stats: FuzzerStats, raw: seq<string>, parseFloat: FloatReader) {
    && GivesUint(raw, "unique_crashes", stats.UniqueCrashes)
    && GivesUint(raw, "unique_hangs", stats.UniqueHangs)
    && GivesUint(raw, "last_path", stats.LastPath)
    && GivesUint(raw, "last_crash", stats.LastCrash)
    && GivesUint(raw, "last_hang", stats.LastHang)
  }

  ghost predicate LabelsFromText(stats: FuzzerStats, raw: seq<string>, parseFloat: FloatReader) {
    && GivesText(raw, "afl_banner", stats.AflBanner)
    && GivesText(raw, "afl_version", stats.AflVersion)
    && GivesText(raw, "command_line", stats.CommandLine)
  }

  ghost predicate FromText(stats: FuzzerStats, raw: seq<string>, parseFloat: FloatReader) {
    && ExecutionFromText(stats, raw, parseFloat)
    && PathsFromText(stats, raw, parseFloat)
    && PendingFromText(stats, raw, parseFloat)
    && FindingsFromText(stats, raw, parseFloat)
    && LabelsFromText(stats, raw, parseFloat)
  }

  ghost predicate Given(raw: seq<string>, stats: FuzzerStats, parseFloat: FloatReader, i: nat)
    requires i < FIELDS
  {
    GivesField(raw, i, Unpack(stats)[i], parseFloat)
  }

  lemma ExecutionGiven(raw: seq<string>, stats: FuzzerStats, parseFloat: FloatReader)
    requires forall i | 0 <= i < FIELDS :: Given(raw, stats, parseFloat, i)
    ensures ExecutionFromText(stats, raw, parseFloat)
  {
    assert Given(raw, stats, parseFloat, 0) && Given(raw, stats, parseFloat, 1) && Given(raw, stats, parseFloat, 2);
    assert Given(raw, stats, parseFloat, 3) && Given(raw, stats, parseFloat, 4) && Given(raw, stats, parseFloat, 5);
    assert Given(raw, stats, parseFloat, 21);
  }

  lemma PathsGiven(raw: seq<string>, stats: FuzzerStats, parseFloat: FloatReader)
    requires forall i | 0 <= i < FIELDS :: Given(raw, stats, parseFloat, i)
    ensures PathsFromText(stats, raw, parseFloat)
  {
    assert Given(raw, stats, parseFloat, 6) && Given(raw, stats, parseFloat, 7) && Given(raw, stats, parseFloat, 8);
    assert Given(raw, stats, parseFloat, 9) && Given(raw, stats, parseFloat, 10);
  }

  lemma PendingGiven(raw: seq<string>, stats: FuzzerStats, parseFloat: FloatReader)
    requires forall i | 0 <= i < FIELDS :: Given(raw, stats, parseFloat, i)
    ensures PendingFromText(stats, raw, parseFloat)
  {
    assert Given(raw, stats, parseFloat, 11) && Given(raw, stats, parseFloat, 12) && Given(raw, stats, parseFloat, 13);
    assert Given(raw, stats, parseFloat, 14) && Given(raw, stats, parseFloat, 15);
  }

  lemma FindingsGiven(raw: seq<string>, stats: FuzzerStats, parseFloat: FloatReader)
    requires forall i | 0 <= i < FIELDS :: Given(raw, stats, parseFloat, i)
    ensures FindingsFromText(stats, raw, parseFloat)
  {
    assert Given(raw, stats, parseFloat, 16) && Given(raw, stats, parseFloat, 17) && Given(raw, stats, parseFloat, 18);
    assert Given(raw, stats, parseFloat, 19) && Given(raw, stats, parseFloat, 20);
  }

  lemma LabelsGiven(raw: seq<string>, stats: FuzzerStats, parseFloat: FloatReader)
    requires forall i | 0 <= i < FIELDS :: Given(raw, stats, parseFloat, i)
    ensures LabelsFromText(stats, raw, parseFloat)
  {
    assert Given(raw, stats, parseFloat, 22) && Given(raw, stats, parseFloat, 23) && Given(raw, stats, parseFloat, 24);
  }

  /** A line that stops the parser, from its text. */
  predicate StopsText(line: string, parseFloat: FloatReader) {
    && line != ""
    && (':' !in line
        || (KeyText(line) == "execs_per_sec" && parseFloat(ValueAfter(line)).None?)
        || (KeyText(line) == "bitmap_cvg" && parseFloat(Trim(ValueAfter(line), '%')).None?)
        || (KeyText(line) in KEYS
            && KeyText(line) !in {"execs_per_sec", "bitmap_cvg", "afl_banner", "afl_version", "command_line"}
            && ParseUint(ValueAfter(line)).None?))
  }

  lemma KindsByName(i: nat)
    requires i < FIELDS
    ensures KindOf(i) == if KEYS[i] == "execs_per_sec" then Float
                         else if KEYS[i] == "bitmap_cvg" then Percent
                         else if KEYS[i] in {"afl_banner", "afl_version", "command_line"} then ValueKind.Text
                         else Uint
  {
    KeyFacts(i);
  }

  lemma OffendsText(line: string, parseFloat: FloatReader)
    ensures Offends(LineOf(line), parseFloat) <==> StopsText(line, parseFloat)
  {
    LineOfText(line);
    if ':' in line && KeyText(line) in KEYS {
      KnownKeys(KeyText(line));
      KindsByName(FieldOf(KeyText(line)));
    }
  }

  lemma TextGiven(raw: seq<string>, stats: FuzzerStats, parseFloat: FloatReader)
    requires HasLastValues(stats, Lines(raw), parseFloat)
    ensures FromText(stats, raw, parseFloat)
  {
    forall i | 0 <= i < FIELDS
      ensures Given(raw, stats, parseFloat, i)
    {
      FieldGiven(raw, stats, parseFloat, i);
    }
    ExecutionGiven(raw, stats, parseFloat);
    PathsGiven(raw, stats, parseFloat);
    PendingGiven(raw, stats, parseFloat);
    FindingsGiven(raw, stats, parseFloat);
    LabelsGiven(raw, stats, parseFloat);
  }

  ghost predicate NoneStops(raw: seq<string>, parseFloat: FloatReader) {
    forall k | 0 <= k < |raw| :: !StopsText(raw[k], parseFloat)
  }

  ghost predicate EveryKey(raw: seq<string>) {
    forall key | key in KEYS :: LastValue(raw, key).Some?
  }

  lemma NoneOffends(raw: seq<string>, parseFloat: FloatReader)
    ensures NoneStops(raw, parseFloat) <==> forall k | 0 <= k < |raw| :: !Offends(Lines(raw)[k], parseFloat)
  {
    forall k | 0 <= k < |raw|
      ensures Offends(Lines(raw)[k], parseFloat) <==> StopsText(raw[k], parseFloat)
    {
      OffendsText(raw[k], parseFloat);
    }
  }

  lemma EveryKeyOccurs(raw: seq<string>)
    ensures EveryKey(raw) <==> AllOccur(Lines(raw))
  {
    forall i | 0 <= i < FIELDS
      ensures KEYS[i] in KEYS && LastText(Lines(raw), i) == LastValue(raw, KEYS[i])
    {
      KeyFacts(i);
      assert KEYS[i] in KEYS;
      LastTextIsLastValue(raw, KEYS[i]);
    }
    forall key | key in KEYS
      ensures FieldOf(key) < FIELDS && LastText(Lines(raw), FieldOf(key)) == LastValue(raw, key)
    {
      LastTextIsLastValue(raw, key);
    }
  }

  lemma FirstOffenceNone(lines: seq<Line>, parseFloat: FloatReader)
    ensures (forall k | 0 <= k < |lines| :: !Offends(lines[k], parseFloat)) && !AllOccur(lines) ==>
              Verdict(lines, parseFloat) == MissingFields
  {
    if forall k | 0 <= k < |lines| :: !Offends(lines[k], parseFloat) {
      VerdictAtEnd(lines, parseFloat);
    }
  }

  /** The first line that stops the parser decides: without a colon it panics, otherwise it reports key and value. */
  lemma StopsAtFirst(stats: string, parseFloat: FloatReader, k: nat)
    requires var raw := Split(stats, '\n');
             && k < |raw| && StopsText(raw[k], parseFloat) && forall i | 0 <= i < k :: !StopsText(raw[i], parseFloat)
    ensures var line, r := Split(stats, '\n')[k], Verdict(Lines(Split(stats, '\n')), parseFloat);
            if ':' !in line then r == Panic
            else r.InvalidValue? && r.field < FIELDS && KEYS[r.field] == KeyText(line)
                 && r.text == if KeyText(line) == "bitmap_cvg" then Trim(ValueAfter(line), '%') else ValueAfter(line)
  {
    var raw := Split(stats, '\n');
    forall i | 0 <= i <= k
      ensures Offends(Lines(raw)[i], parseFloat) <==> StopsText(raw[i], parseFloat)
    {
      OffendsText(raw[i], parseFloat);
    }
    VerdictAt(Lines(raw), parseFloat, k);
    LineOfText(raw[k]);
    if ':' in raw[k] && KeyText(raw[k]) in KEYS {
      KnownKeys(KeyText(raw[k]));
      KindsByName(FieldOf(KeyText(raw[k])));
    }
  }

  /** The parser on the text of a file: it succeeds exactly when no line stops it and every key has a line, and then
      each field is the value of the last line with its key. */
  lemma ParsesText(stats: string, parseFloat: FloatReader)
    ensures var raw, r := Split(stats, '\n'), Verdict(Lines(Split(stats, '\n')), parseFloat);
            && (r.Parsed? <==> NoneStops(raw, parseFloat) && EveryKey(raw))
            && (r.Parsed? ==> FromText(r.stats, raw, parseFloat))
            && (NoneStops(raw, parseFloat) && !EveryKey(raw) ==> r == MissingFields)
  {
    var raw := Split(stats, '\n');
    FirstOffenceNone(Lines(raw), parseFloat);
    ParsesLastOccurrences(Lines(raw), parseFloat);
    NoneOffends(raw, parseFloat);
    EveryKeyOccurs(raw);
    if Verdict(Lines(raw), parseFloat).Parsed? {
      TextGiven(raw, Verdict(Lines(raw), parseFloat).stats, parseFloat);
    }
  }

  // ---------------------------------------------------------------- printing and parsing back

  /** A number of hundredths with two decimals. */
  function Hundredths(c: nat): string {
    Digits(c / 100) + "." + [Digit(c % 100 / 10), Digit(c % 10)]
  }

  predicate TwoDecimals(x: real) {
    Cents(x) >= 0 && x == Cents(x) as real / 100.0
  }

  function Cents(x: real): int {
    (x * 100.0).Floor
  }

  /** The numbers that two decimals express, none of them negative. */
  lemma TwoDecimalsIs(x: real)
    ensures TwoDecimals(x) <==> exists c: nat :: Hundredth(c) == x
  {
    if TwoDecimals(x) {
      assert Hundredth(Cents(x)) == x;
    }
    if c: nat :| Hundredth(c) == x {
      assert x * 100.0 == c as real;
    }
  }

  function Hundredth(c: nat): real {
    c as real / 100.0
  }

  function ValueText(v: Value, kind: ValueKind): string
    requires OfKind(v, kind) && (v.Frac? ==> TwoDecimals(v.x))
  {
    match kind
    case Uint => Digits(v.n)
    case Float => Hundredths(Cents(v.x))
    case Percent => Hundredths(Cents(v.x)) + "%"
    case Text => v.s
  }

  /** A field's line in AFL's layout: the key padded to 15 columns, a colon, a space, the value. */
  function FieldLine(key: string, text: string): string
    requires |key| <= 15
  {
    key + Repeat(' ', 15 - |key|) + ":" + " " + text
  }

  predicate Printable(v: Value) {
    match v
    case Num(n) => n <= MAX_UINT64
    case Frac(x) => TwoDecimals(x)
    case Str(s) => Trimmed(s, ' ') && '\n' !in s
  }

  predicate PrintableStats(s: FuzzerStats) {
    forall i | 0 <= i < FIELDS :: Printable(Unpack(s)[i])
  }

  predicate Lower(s: string) {
    forall j | 0 <= j < |s| :: s[j] == '_' || 'a' <= s[j] <= 'z'
  }

  lemma FirstKeys(i: nat)
    requires i < 12
    ensures Lower(KEYS[i]) && FieldOf(KEYS[i]) == i && |KEYS[i]| <= 15
  {
  }

  lemma OtherKeys(i: nat)
    requires 12 <= i < FIELDS
    ensures Lower(KEYS[i]) && FieldOf(KEYS[i]) == i && |KEYS[i]| <= 15
  {
  }

  lemma KeyFacts(i: nat)
    requires i < FIELDS
    ensures FieldOf(KEYS[i]) == i && |KEYS[i]| <= 15
    ensures ':' !in KEYS[i] && Trimmed(KEYS[i], ' ') && '\n' !in KEYS[i]
  {
    if i < 12 {
      FirstKeys(i);
    } else {
      OtherKeys(i);
    }
  }

  function PrintLine(s: FuzzerStats, i: nat): string
    requires i < FIELDS && PrintableStats(s)
  {
    KeyFacts(i);
    PackUnpack(s);
    FieldLine(KEYS[i], ValueText(Unpack(s)[i], KindOf(i)))
  }

  /** The layout, on a line of each kind. */
  lemma PrintedLayout()
    ensures FieldLine("start_time", ValueText(Num(7), Uint)) == "start_time     : 7"
    ensures Hundredths(931) == "9.31" && FieldLine("execs_per_sec", Hundredths(931)) == "execs_per_sec  : 9.31"
    ensures FieldLine("bitmap_cvg", Hundredths(404) + "%") == "bitmap_cvg     : 4.04%"
    ensures FieldLine("afl_banner", ValueText(Str("fuzz"), ValueKind.Text)) == "afl_banner     : fuzz"
  {
    assert Digits(7) == "7" && Digits(9) == "9" && Digits(4) == "4";
    assert Repeat(' ', 5) == "     " && Repeat(' ', 2) == "  ";
  }

  lemma FieldLineParts(key: string, text: string)
    requires |key| <= 15 && ':' !in key
    ensures var line, padded := FieldLine(key, text), key + Repeat(' ', 15 - |key|);
            && IndexOf(line, ':') == 15 < |line|
            && line[..15] == padded && line[16..] == Repeat(' ', 1) + text
  {
    var padded := key + Repeat(' ', 15 - |key|);
    var line := FieldLine(key, text);
    assert line == padded + [':'] + (Repeat(' ', 1) + text);
    IndexAfter(padded, ':', Repeat(' ', 1) + text);
  }

  lemma LineOfFieldLine(i: nat, text: string)
    requires i < FIELDS && |KEYS[i]| <= 15 && Trimmed(text, ' ')
    ensures LineOf(FieldLine(KEYS[i], text)) == Known(i, text)
  {
    KeyFacts(i);
    FieldLineParts(KEYS[i], text);
    TrimPadRight(KEYS[i], 15 - |KEYS[i]|, ' ');
    TrimPadLeft(1, text, ' ');
  }

  /** `parseFloat` reads numerals with two decimals exactly. */
  ghost predicate ReadsHundredths(parseFloat: FloatReader) {
    forall c: nat :: parseFloat(Hundredths(c)) == Some(c as real / 100.0)
  }

  lemma HundredthsTrimmed(c: nat, d: char)
    requires d == ' ' || d == '%'
    ensures Trimmed(Hundredths(c), d) && Trimmed(Hundredths(c) + "%", ' ')
    ensures Trim(Hundredths(c) + "%", '%') == Hundredths(c)
    ensures '\n' !in Hundredths(c)
  {
    var s := Hundredths(c);
    assert IsDigit(s[0]) && s[0] == Digits(c / 100)[0] && s[|s| - 1] == Digit(c % 10);
    assert s + "%" == s + Repeat('%', 1);
    TrimPadRight(s, 1, '%');
  }

  lemma ReadFraction(x: real, parseFloat: FloatReader)
    requires TwoDecimals(x) && ReadsHundredths(parseFloat)
    ensures parseFloat(Hundredths(Cents(x))) == Some(x)
  {
    var c: nat := Cents(x);
    assert parseFloat(Hundredths(c)) == Some(c as real / 100.0);
  }

  lemma ReadNumber(n: nat)
    requires n <= MAX_UINT64
    ensures ParseUint(Digits(n)) == Some(n)
    ensures Trimmed(Digits(n), ' ') && '\n' !in Digits(n)
  {
    DigitsRoundTrip(n);
    var s := Digits(n);
    assert IsDigit(s[0]) && IsDigit(s[|s| - 1]);
  }

  /** A printed value reads back as itself. */
  lemma ReadValueText(v: Value, kind: ValueKind, parseFloat: FloatReader)
    requires OfKind(v, kind) && Printable(v) && ReadsHundredths(parseFloat)
    ensures ReadValue(kind, ValueText(v, kind), parseFloat) == Some(v)
    ensures Trimmed(ValueText(v, kind), ' ') && '\n' !in ValueText(v, kind)
  {
    match v
    case Num(n) =>
      ReadNumber(n);
    case Frac(x) =>
      HundredthsTrimmed(Cents(x), ' ');
      HundredthsTrimmed(Cents(x), '%');
      ReadFraction(x, parseFloat);
    case Str(s) =>
  }

  lemma PrintedLine(s: FuzzerStats, i: nat, parseFloat: FloatReader)
    requires i < FIELDS && PrintableStats(s) && ReadsHundredths(parseFloat)
    ensures LineOf(PrintLine(s, i)).Known? && LineOf(PrintLine(s, i)).field == i
    ensures ReadValue(KindOf(i), LineOf(PrintLine(s, i)).text, parseFloat) == Some(Unpack(s)[i])
    ensures '\n' !in PrintLine(s, i)
  {
    KeyFacts(i);
    PackUnpack(s);
    ReadValueText(Unpack(s)[i], KindOf(i), parseFloat);
    LineOfFieldLine(i, ValueText(Unpack(s)[i], KindOf(i)));
  }

  /** One of the printed lines of `s`, an empty line, or a line with a colon whose key is unknown. */
  ghost predicate LineFits(line: string, s: FuzzerStats)
    requires PrintableStats(s)
  {
    && '\n' !in line
    && (line == "" || (':' in line && KeyText(line) !in KEYS) || exists i | 0 <= i < FIELDS :: line == PrintLine(s, i))
  }

  /** The lines of a stats file for `s`: its 25 printed lines, in any order, with empty lines and lines of unknown keys
      anywhere in between. */
  ghost predicate Lists(raw: seq<string>, s: FuzzerStats)
    requires PrintableStats(s)
  {
    && (forall k | 0 <= k < |raw| :: LineFits(raw[k], s))
    && (forall i | 0 <= i < FIELDS :: PrintLine(s, i) in raw)
  }

  lemma FittingLine(line: string, s: FuzzerStats, parseFloat: FloatReader)
    requires PrintableStats(s) && LineFits(line, s) && ReadsHundredths(parseFloat)
    ensures !Offends(LineOf(line), parseFloat)
    ensures var read := LineOf(line);
            read.Known? ==> ReadValue(KindOf(read.field), read.text, parseFloat) == Some(Unpack(s)[read.field])
  {
    LineOfText(line);
    if LineOf(line).Known? || LineOf(line).NoColon? {
      var i :| 0 <= i < FIELDS && line == PrintLine(s, i);
      PrintedLine(s, i, parseFloat);
    }
  }

  lemma PrintedOccurs(raw: seq<string>, s: FuzzerStats, parseFloat: FloatReader, i: nat)
    requires PrintableStats(s) && Lists(raw, s) && ReadsHundredths(parseFloat) && i < FIELDS
    ensures LastText(Lines(raw), i).Some?
  {
    var lines := Lines(raw);
    assert PrintLine(s, i) in raw;
    var k :| 0 <= k < |raw| && raw[k] == PrintLine(s, i);
    PrintedLine(s, i, parseFloat);
    assert lines[k] == LineOf(raw[k]);
    LastTextFieldRange(lines, i);
  }

  lemma ListedField(raw: seq<string>, s: FuzzerStats, parseFloat: FloatReader, i: nat)
    requires PrintableStats(s) && Lists(raw, s) && ReadsHundredths(parseFloat) && i < FIELDS
    ensures LastText(Lines(raw), i).Some?
    ensures ReadValue(KindOf(i), LastText(Lines(raw), i).value, parseFloat) == Some(Unpack(s)[i])
  {
    PrintedOccurs(raw, s, parseFloat, i);
    var m := LastTextIsALine(Lines(raw), i);
    FittingLine(raw[m], s, parseFloat);
  }

  lemma ListedHeld(raw: seq<string>, s: FuzzerStats, parseFloat: FloatReader)
    requires PrintableStats(s) && Lists(raw, s) && ReadsHundredths(parseFloat)
    ensures forall k | 0 <= k < |raw| :: !Offends(Lines(raw)[k], parseFloat)
    ensures AllOccur(Lines(raw)) && AllHeld(Lines(raw), parseFloat) == Unpack(s)
  {
    var lines, values := Lines(raw), Unpack(s);
    forall k | 0 <= k < |lines|
      ensures !Offends(lines[k], parseFloat)
    {
      FittingLine(raw[k], s, parseFloat);
    }
    forall i | 0 <= i < FIELDS
      ensures LastText(lines, i).Some? && AllHeld(lines, parseFloat)[i] == values[i]
    {
      ListedField(raw, s, parseFloat, i);
      LastTextReads(lines, parseFloat, i);
    }
  }

  lemma NoNewlines(raw: seq<string>, s: FuzzerStats)
    requires PrintableStats(s) && Lists(raw, s)
    ensures |raw| >= 1 && forall k | 0 <= k < |raw| :: '\n' !in raw[k]
  {
    assert PrintLine(s, 0) in raw;
    forall k | 0 <= k < |raw|
      ensures '\n' !in raw[k]
    {
      assert LineFits(raw[k], s);
    }
  }

  lemma ListedText(raw: seq<string>, s: FuzzerStats)
    requires PrintableStats(s) && Lists(raw, s)
    ensures |raw| >= 1 && Split(Unlines(raw, '\n'), '\n') == raw
  {
    NoNewlines(raw, s);
    SplitUnlines(raw, '\n');
  }

  /** Whatever the order of its lines, and whatever blank lines and lines of unknown keys come between them, the printed
      file of a record parses back to that record. */
  lemma StatsRoundTrip(raw: seq<string>, s: FuzzerStats, parseFloat: FloatReader)
    requires PrintableStats(s) && Lists(raw, s) && ReadsHundredths(parseFloat)
    ensures |raw| >= 1 && Verdict(Lines(Split(Unlines(raw, '\n'), '\n')), parseFloat) == Parsed(s)
  {
    ListedText(raw, s);
    ListedHeld(raw, s, parseFloat);
    VerdictAtEnd(Lines(raw), parseFloat);
    PackUnpack(s);
  }

  // ---------------------------------------------------------------- a reader of decimals

  function Pow10(n: nat): (p: nat)
    ensures p >= 1
  {
    if n == 0 then 1 else 10 * Pow10(n - 1)
  }

  /** Reads "12" and "12.34" exactly. */
  function ReadDecimal(s: string): Option<real> {
    var dot := IndexOf(s, '.');
    if dot == 0 || !AllDigits(s[..dot]) then None
    else if dot == |s| then Some(DigitsValue(s) as real)
    else if !AllDigits(s[dot + 1..]) then None
    else Some(DigitsValue(s[..dot]) as real + DigitsValue(s[dot + 1..]) as real / Pow10(|s| - dot - 1) as real)
  }

  lemma TwoDigits(a: nat, b: nat)
    requires a < 10 && b < 10
    ensures AllDigits([Digit(a), Digit(b)]) && DigitsValue([Digit(a), Digit(b)]) == 10 * a + b
  {
    assert [Digit(a), Digit(b)][..1] == [Digit(a)];
    assert [Digit(a)][..0] == "";
    assert DigitsValue([Digit(a)]) == a;
  }

  lemma HundredthsParts(c: nat)
    ensures var s, whole := Hundredths(c), Digits(c / 100);
            && IndexOf(s, '.') == |whole| < |s| == |whole| + 3
            && s[..|whole|] == whole && s[|whole| + 1..] == [Digit(c % 100 / 10), Digit(c % 10)]
  {
    var whole, cents := Digits(c / 100), [Digit(c % 100 / 10), Digit(c % 10)];
    assert Hundredths(c) == whole + ['.'] + cents;
    IndexAfter(whole, '.', cents);
  }

  lemma LastDigit(k: nat, d: nat)
    requires d < 10
    ensures (10 * k + d) % 10 == d
  {
  }

  lemma LastTwoDigits(c: nat)
    ensures 10 * (c % 100 / 10) + c % 10 == c % 100
  {
    var q, r := c / 100, c % 100;
    var k, d := 10 * q + r / 10, r % 10;
    assert c == 10 * k + d;
    LastDigit(k, d);
  }

  lemma WholeAndCents(q: nat, r: nat)
    ensures q as real + r as real / 100.0 == (100 * q + r) as real / 100.0
  {
    assert (100 * q + r) as real == 100.0 * q as real + r as real;
  }

  lemma ReadDecimalOfHundredths(c: nat)
    ensures ReadDecimal(Hundredths(c)) == Some((c / 100) as real + (c % 100) as real / 100.0)
  {
    HundredthsParts(c);
    DigitsRoundTrip(c / 100);
    TwoDigits(c % 100 / 10, c % 10);
    LastTwoDigits(c);
    assert Pow10(1) == 10 && Pow10(2) == 100;
  }

  /** The assumption of the round trip can be met. */
  lemma ReadDecimalReadsHundredths()
    ensures ReadsHundredths(ReadDecimal)
  {
    forall c: nat
      ensures ReadDecimal(Hundredths(c)) == Some(c as real / 100.0)
    {
      ReadDecimalOfHundredths(c);
      WholeAndCents(c / 100, c % 100);
    }
  }
}
