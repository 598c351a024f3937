/** Splitting, trimming, and decimal numerals, as in the packages `strings` and `strconv`. */
module Text {
  // ---------------------------------------------------------------- splitting

  /** `strings.Split` by one character: "a//b" gives ["a", "", "b"] and "" gives [""]. */
  function Split(s: string, sep: char): (parts: seq<string>)
    ensures |parts| >= 1
  {
    if s == "" then [""]
    else
      var rest := Split(s[1..], sep);
      if s[0] == sep then [""] + rest else [[s[0]] + rest[0]] + rest[1..]
  }

  function Unlines(parts: seq<string>, sep: char): string
    requires |parts| >= 1
  {
    if |parts| == 1 then parts[0] else parts[0] + [sep] + Unlines(parts[1..], sep)
  }

  lemma {:induction false} SplitWhole(s: string, sep: char)
    requires sep !in s
    ensures Split(s, sep) == [s]
  {
    if s != "" {
      SplitWhole(s[1..], sep);
      assert [s[0]] + s[1..] == s;
    }
  }

  lemma {:induction false} SplitParts(s: string, sep: char)
    ensures forall i | 0 <= i < |Split(s, sep)| :: sep !in Split(s, sep)[i]
  {
    if s != "" {
      SplitParts(s[1..], sep);
    }
  }

  lemma {:induction false} SplitFirst(a: string, sep: char, b: string)
    requires sep !in a
    ensures Split(a + [sep] + b, sep) == [a] + Split(b, sep)
  {
    var s := a + [sep] + b;
    if a == "" {
      assert s[1..] == b;
    } else {
      assert s[1..] == a[1..] + [sep] + b;
      SplitFirst(a[1..], sep, b);
      assert [s[0]] + a[1..] == a;
    }
  }

  /** Splitting undoes joining, for parts without the separator. */
  lemma {:induction false} SplitUnlines(parts: seq<string>, sep: char)
    requires |parts| >= 1 && forall i | 0 <= i < |parts| :: sep !in parts[i]
    ensures Split(Unlines(parts, sep), sep) == parts
  {
    if |parts| == 1 {
      SplitWhole(parts[0], sep);
    } else {
      SplitUnlines(parts[1..], sep);
      SplitFirst(parts[0], sep, Unlines(parts[1..], sep));
    }
  }

  /** And joining undoes splitting. */
  lemma {:induction false} SplitJoins(s: string, sep: char)
    ensures Unlines(Split(s, sep), sep) == s
  {
    if s != "" {
      var rest := Split(s[1..], sep);
      SplitJoins(s[1..], sep);
      assert s == [s[0]] + s[1..];
      if s[0] == sep {
        UnlinesEmpty(rest, sep);
      } else {
        UnlinesFirst(s[0], rest, sep);
      }
    }
  }

  lemma UnlinesEmpty(parts: seq<string>, sep: char)
    requires |parts| >= 1
    ensures Unlines([""] + parts, sep) == [sep] + Unlines(parts, sep)
  {
    assert ([""] + parts)[1..] == parts;
  }

  lemma UnlinesFirst(c: char, parts: seq<string>, sep: char)
    requires |parts| >= 1
    ensures Unlines([[c] + parts[0]] + parts[1..], sep) == [c] + Unlines(parts, sep)
  {
    assert ([[c] + parts[0]] + parts[1..])[1..] == parts[1..];
    if |parts| == 1 {
      assert [[c] + parts[0]] + parts[1..] == [[c] + parts[0]];
    }
  }

  /** The position of the first occurrence of a character, or the length of the string. */
  function IndexOf(s: string, c: char): (i: nat)
    ensures i <= |s| && (i < |s| ==> s[i] == c)
    ensures forall j | 0 <= j < i :: s[j] != c
  {
    if s == "" || s[0] == c then 0 else 1 + IndexOf(s[1..], c)
  }

  lemma IndexAfter(a: string, c: char, b: string)
    requires c !in a
    ensures IndexOf(a + [c] + b, c) == |a|
  {
    var s := a + [c] + b;
    assert s[|a|] == c && forall j | 0 <= j < |a| :: s[j] == a[j];
  }

  // ---------------------------------------------------------------- trimming

  function TrimLeft(s: string, c: char): string {
    if s != "" && s[0] == c then TrimLeft(s[1..], c) else s
  }

  function TrimRight(s: string, c: char): string {
    if s != "" && s[|s| - 1] == c then TrimRight(s[..|s| - 1], c) else s
  }

  /** `strings.Trim` with a one-character cutset. */
  function Trim(s: string, c: char): string {
    TrimRight(TrimLeft(s, c), c)
  }

  predicate Trimmed(s: string, c: char) {
    s == "" || (s[0] != c && s[|s| - 1] != c)
  }

  function Repeat(c: char, n: nat): (s: string)
    ensures |s| == n && forall i | 0 <= i < n :: s[i] == c
  {
    seq(n, _ => c)
  }

  lemma {:induction false} TrimLeftPad(n: nat, s: string, c: char)
    requires Trimmed(s, c)
    ensures TrimLeft(Repeat(c, n) + s, c) == s
  {
    if n > 0 {
      assert (Repeat(c, n) + s)[1..] == Repeat(c, n - 1) + s;
      TrimLeftPad(n - 1, s, c);
    } else {
      assert Repeat(c, n) + s == s;
    }
  }

  lemma {:induction false} TrimRightPad(n: nat, s: string, c: char)
    requires Trimmed(s, c)
    ensures TrimRight(s + Repeat(c, n), c) == s
  {
    if n > 0 {
      assert (s + Repeat(c, n))[..|s| + n - 1] == s + Repeat(c, n - 1);
      TrimRightPad(n - 1, s, c);
    } else {
      assert s + Repeat(c, n) == s;
    }
  }

  lemma TrimPadRight(s: string, n: nat, c: char)
    requires Trimmed(s, c)
    ensures Trim(s + Repeat(c, n), c) == s
  {
    if s == "" {
      assert s + Repeat(c, n) == Repeat(c, n) + "";
      TrimLeftPad(n, "", c);
    } else {
      TrimRightPad(n, s, c);
    }
  }

  lemma TrimPadLeft(n: nat, s: string, c: char)
    requires Trimmed(s, c)
    ensures Trim(Repeat(c, n) + s, c) == s
  {
    TrimLeftPad(n, s, c);
  }

  lemma {:induction false} TrimLeftIs(s: string, c: char) returns (n: nat)
    ensures s == Repeat(c, n) + TrimLeft(s, c)
    ensures TrimLeft(s, c) == "" || TrimLeft(s, c)[0] != c
  {
    n := 0;
    if s != "" && s[0] == c {
      var k := TrimLeftIs(s[1..], c);
      n := k + 1;
      assert Repeat(c, n) == [c] + Repeat(c, k);
      assert s == [s[0]] + s[1..];
    }
  }

  lemma {:induction false} TrimRightIs(s: string, c: char) returns (n: nat)
    ensures s == TrimRight(s, c) + Repeat(c, n)
    ensures TrimRight(s, c) == "" || TrimRight(s, c)[|TrimRight(s, c)| - 1] != c
  {
    n := 0;
    if s != "" && s[|s| - 1] == c {
      var k := TrimRightIs(s[..|s| - 1], c);
      n := k + 1;
      assert Repeat(c, n) == Repeat(c, k) + [c];
      assert s == s[..|s| - 1] + [c];
    }
  }

  /** Trimming takes away the character at both ends, as often as it stands there, and nothing else. */
  lemma TrimIs(s: string, c: char) returns (n: nat, k: nat)
    ensures s == Repeat(c, n) + Trim(s, c) + Repeat(c, k) && Trimmed(Trim(s, c), c)
  {
    n := TrimLeftIs(s, c);
    var t := TrimLeft(s, c);
    k := TrimRightIs(t, c);
    assert Trim(s, c) != "" ==> Trim(s, c)[0] == t[0];
  }

  // ---------------------------------------------------------------- numerals

  function Pow2(n: nat): (p: nat)
    ensures p >= 1
  {
    if n == 0 then 1 else 2 * Pow2(n - 1)
  }

  predicate IsDigit(c: char) {
    '0' <= c <= '9'
  }

  predicate AllDigits(s: string) {
    forall i | 0 <= i < |s| :: IsDigit(s[i])
  }

  function Digit(n: nat): (c: char)
    requires n < 10
    ensures IsDigit(c)
  {
    '0' + n as char
  }

  /** The decimal numeral of a number. */
  function Digits(n: nat): (s: string)
    ensures |s| >= 1 && AllDigits(s)
  {
    if n < 10 then [Digit(n)] else Digits(n / 10) + [Digit(n % 10)]
  }

  function DigitsValue(s: string): nat
    requires AllDigits(s)
  {
    if s == "" then 0 else 10 * DigitsValue(s[..|s| - 1]) + (s[|s| - 1] - '0') as nat
  }

  lemma {:induction false} DigitsRoundTrip(n: nat)
    ensures DigitsValue(Digits(n)) == n
  {
    if n >= 10 {
      DigitsRoundTrip(n / 10);
      assert Digits(n)[..|Digits(n)| - 1] == Digits(n / 10);
    }
  }

  /** The numeral of a number has no leading zero, */
  lemma {:induction false} DigitsCanonical(n: nat)
    ensures if n < 10 then Digits(n) == [Digit(n)] else Digits(n)[0] != '0'
  {
    if n >= 10 {
      DigitsCanonical(n / 10);
    }
  }

  /** and it is the only one: reading a numeral without leading zeros and printing the number gives it back. */
  predicate IsNumeral(s: string) {
    |s| >= 1 && (forall i | 0 <= i < |s| :: '0' <= s[i] <= '9') && (|s| == 1 || s[0] != '0')
  }

  lemma NumeralFront(s: string)
    requires IsNumeral(s) && |s| > 1
    ensures IsNumeral(s[..|s| - 1]) && s[..|s| - 1] != "0"
  {
    assert s[..|s| - 1][0] == s[0];
  }

  lemma OneDigit(s: string)
    requires IsNumeral(s) && |s| == 1
    ensures DigitsValue(s) == (s[0] - '0') as nat < 10 && Digits(DigitsValue(s)) == s
  {
    assert s[..0] == "";
  }

  lemma {:induction false} NumeralRoundTrip(s: string)
    requires IsNumeral(s)
    ensures Digits(DigitsValue(s)) == s
    ensures DigitsValue(s) == 0 ==> s == "0"
  {
    if |s| == 1 {
      OneDigit(s);
    } else {
      var front, d := s[..|s| - 1], (s[|s| - 1] - '0') as nat;
      NumeralFront(s);
      NumeralRoundTrip(front);
      Tens(DigitsValue(front), d);
      assert s == front + [Digit(d)];
    }
  }

  lemma Tens(k: nat, d: nat)
    requires k > 0 && d < 10
    ensures (10 * k + d) / 10 == k && (10 * k + d) % 10 == d && 10 * k + d >= 10
  {
  }

  const MAX_UINT64: nat := 0xFFFF_FFFF_FFFF_FFFF

  datatype Option<+T> = None | Some(value: T)

  /** `strconv.ParseUint(s, 10, 64)`: digits only, at least one, and no overflow. */
  function ParseUint(s: string): Option<nat> {
    if s == "" || !AllDigits(s) || DigitsValue(s) > MAX_UINT64 then None else Some(DigitsValue(s))
  }

  /** Exactly the numbers below 2^64 are read, and nothing but digits. */
  lemma ParseUintIs(n: nat, s: string)
    ensures ParseUint(Digits(n)) == if n < 18446744073709551616 then Some(n) else None
    ensures ParseUint(s).Some? <==>
              s != "" && (forall i | 0 <= i < |s| :: '0' <= s[i] <= '9') && DigitsValue(s) < 18446744073709551616
  {
    DigitsRoundTrip(n);
  }
}
