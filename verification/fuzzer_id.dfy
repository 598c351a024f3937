/** Fuzzer ids, made from a hostname and a random number. */
module FuzzerIds {
  import opened Paths

  const MAX_HOSTNAME := 27

  predicate ValidChar(c: char) {
    'a' <= c <= 'z' || 'A' <= c <= 'Z' || '0' <= c <= '9' || c == '_' || c == '-'
  }

  function Sanitize(s: string): (r: string)
    ensures |r| == |s|
    ensures forall i | 0 <= i < |r| :: ValidChar(r[i]) && r[i] == if ValidChar(s[i]) then s[i] else '_'
  {
    seq(|s|, i requires 0 <= i < |s| => if ValidChar(s[i]) then s[i] else '_')
  }

  predicate IsHexDigit(c: char) {
    '0' <= c <= '9' || 'a' <= c <= 'f'
  }

  function HexDigit(n: nat): (c: char)
    requires n < 16
    ensures IsHexDigit(c)
  {
    "0123456789abcdef"[n]
  }

  function HexDigitValue(c: char): nat
    requires IsHexDigit(c)
  {
    if c <= '9' then (c - '0') as nat else (c - 'a') as nat + 10
  }

  /** The verb `%x`: lower case, no padding. */
  function Hex(n: nat): (s: string)
    ensures |s| >= 1 && forall i | 0 <= i < |s| :: IsHexDigit(s[i])
  {
    if n < 16 then [HexDigit(n)] else Hex(n / 16) + [HexDigit(n % 16)]
  }

  function HexValue(s: string): nat
    requires forall i | 0 <= i < |s| :: IsHexDigit(s[i])
  {
    if s == "" then 0 else 16 * HexValue(s[..|s| - 1]) + HexDigitValue(s[|s| - 1])
  }

  lemma {:induction false} HexRoundTrip(n: nat)
    ensures HexValue(Hex(n)) == n
  {
    if n >= 16 {
      HexRoundTrip(n / 16);
      assert Hex(n)[..|Hex(n)| - 1] == Hex(n / 16);
    } else {
      assert Hex(n)[..0] == "";
    }
  }

  /** Lower case, and no leading zero. */
  predicate IsHexNumeral(s: string) {
    && s != "" && (forall i | 0 <= i < |s| :: '0' <= s[i] <= '9' || 'a' <= s[i] <= 'f')
    && (|s| == 1 || s[0] != '0')
  }

  lemma {:induction false} HexCanonical(n: nat)
    ensures IsHexNumeral(Hex(n)) && (n > 0 ==> Hex(n)[0] != '0')
  {
    if n >= 16 {
      HexCanonical(n / 16);
    }
  }

  /** `number & 0xffff` */
  function Low16(number: nat): (n: nat)
    ensures n < 0x1_0000
  {
    number % 0x1_0000
  }

  function FuzzerId(hostname: string, number: nat): string {
    Sanitize(hostname) + "-" + Hex(Low16(number))
  }

  /** The limit on the hostname's length is applied to a variable that is not used any more. */
  method MkFuzzerId(hostname: string, number: nat) returns (id: string)
    ensures id == FuzzerId(hostname, number)
    ensures Component(id)
    ensures |id| >= |hostname| + 2
    ensures forall i | 0 <= i < |hostname| ::
              var c := hostname[i];
              id[i] == if 'a' <= c <= 'z' || 'A' <= c <= 'Z' || '0' <= c <= '9' || c == '_' || c == '-' then c else '_'
    ensures id[|hostname|] == '-'
    ensures IsHexNumeral(id[|hostname| + 1..]) && HexValue(id[|hostname| + 1..]) == number % 65536
  {
    var host := hostname;
    var validHostname := Sanitize(host);
    if |host| > MAX_HOSTNAME {
      host := host[..MAX_HOSTNAME];
    }
    id := validHostname + "-" + Hex(Low16(number));
    IdIsComponent(hostname, number);
    HexRoundTrip(Low16(number));
    HexCanonical(Low16(number));
    assert id[|hostname| + 1..] == Hex(Low16(number));
  }

  /** An id is one step down from any directory, so no fuzzer's files are outside a directory of its own. */
  lemma IdIsComponent(hostname: string, number: nat)
    ensures Component(FuzzerId(hostname, number))
    ensures forall dir :: Join(dir, FuzzerId(hostname, number)) == dir + [FuzzerId(hostname, number)]
  {
    var id := FuzzerId(hostname, number);
    assert id[|hostname|] == '-';
    forall i | 0 <= i < |id|
      ensures id[i] != '/' && id[i] != '.'
    {
      assert id[i] == if i < |hostname| then Sanitize(hostname)[i]
                      else if i == |hostname| then '-' else Hex(Low16(number))[i - |hostname| - 1];
    }
    forall dir
      ensures Join(dir, id) == dir + [id]
    {
      JoinComponent(dir, id);
    }
  }

  /** Two ids are the same exactly when the sanitized hostnames and the low halves of the numbers are. */
  lemma SameId(host1: string, number1: nat, host2: string, number2: nat)
    ensures FuzzerId(host1, number1) == FuzzerId(host2, number2) <==>
            Sanitize(host1) == Sanitize(host2) && Low16(number1) == Low16(number2)
  {
    var a, b := FuzzerId(host1, number1), FuzzerId(host2, number2);
    var x, y := Hex(Low16(number1)), Hex(Low16(number2));
    if a == b {
      SameDash(Sanitize(host1), x, Sanitize(host2), y);
      HexRoundTrip(Low16(number1));
      HexRoundTrip(Low16(number2));
    }
  }

  /** What follows the last dash tells where it is. */
  lemma SameDash(s: string, x: string, t: string, y: string)
    requires s + "-" + x == t + "-" + y
    requires forall i | 0 <= i < |x| :: IsHexDigit(x[i])
    requires forall i | 0 <= i < |y| :: IsHexDigit(y[i])
    ensures s == t && x == y
  {
    var a, b := s + "-" + x, t + "-" + y;
    assert a[|s|] == '-' && b[|t|] == '-';
    assert forall i | |s| < i < |a| :: a[i] == x[i - |s| - 1] != '-';
    assert forall i | |t| < i < |b| :: b[i] == y[i - |t| - 1] != '-';
    assert |s| == |t|;
    assert s == a[..|s|] && t == b[..|t|] && x == a[|s| + 1..] && y == b[|t| + 1..];
  }

  lemma HexLength(n: nat)
    requires n < 0x1_0000
    ensures |Hex(n)| == if n < 0x10 then 1 else if n < 0x100 then 2 else if n < 0x1000 then 3 else 4
  {
  }

  /** AFL takes ids of at most 32 characters. The ids of a host all are short enough exactly when its name has at most
      27 characters; the number then has room for its up to four digits. */
  lemma IdFits(hostname: string)
    ensures (forall number :: |FuzzerId(hostname, number)| <= 32) <==> |hostname| <= 27
  {
    forall number
      ensures |FuzzerId(hostname, number)| <= |hostname| + 5
    {
      HexLength(Low16(number));
    }
    HexLength(0xffff);
    assert Low16(0xffff) == 0xffff;
    assert |FuzzerId(hostname, 0xffff)| == |hostname| + 5;
  }

  /** A host whose ids are too long. */
  lemma IdCanBeTooLong()
    ensures |FuzzerId("a-host-with-a-name-of-thirty-3ch", 0)| > 32
  {
  }
}
