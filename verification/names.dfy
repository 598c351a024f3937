/** File names in the order in which `ioutil.ReadDir` lists them. */
module Names {
  predicate Less(a: string, b: string) {
    b != "" && (a == "" || a[0] < b[0] || (a[0] == b[0] && Less(a[1..], b[1..])))
  }

  /** The order of `sort.Strings`: a proper prefix comes first, otherwise the first difference decides. */
  lemma {:induction false} LessIs(a: string, b: string)
    ensures Less(a, b) <==>
            a < b || exists i :: 0 <= i < |a| && i < |b| && a[..i] == b[..i] && a[i] < b[i]
  {
    if a == "" || b == "" {
    } else if a[0] != b[0] {
      assert a[..0] == b[..0];
      if i :| 0 <= i < |a| && i < |b| && a[..i] == b[..i] && a[i] < b[i] {
        FirstDifference(a, b, i);
      }
    } else {
      var s, t := a[1..], b[1..];
      LessIs(s, t);
      assert a == [a[0]] + s && b == [b[0]] + t;
      assert a < b <==> s < t;
      forall i | 0 <= i < |s| && i < |t|
        ensures s[..i] == t[..i] <==> a[..i + 1] == b[..i + 1]
      {
        assert a[..i + 1] == [a[0]] + s[..i] && b[..i + 1] == [b[0]] + t[..i];
        assert a[..i + 1][1..] == s[..i] && b[..i + 1][1..] == t[..i];
      }
      if i :| 0 <= i < |s| && i < |t| && s[..i] == t[..i] && s[i] < t[i] {
        assert a[..i + 1] == b[..i + 1] && a[i + 1] < b[i + 1];
      }
      if i :| 0 <= i < |a| && i < |b| && a[..i] == b[..i] && a[i] < b[i] {
        assert i > 0 && s[..i - 1] == t[..i - 1] && s[i - 1] < t[i - 1];
      }
    }
  }

  lemma FirstDifference(a: string, b: string, i: nat)
    requires i < |a| && i < |b| && a[..i] == b[..i]
    ensures i > 0 ==> a[0] == b[0]
  {
    if i > 0 {
      assert a[..i][0] == a[0] && b[..i][0] == b[0];
    }
  }

  ghost predicate Ascending(names: seq<string>) {
    forall i, j | 0 <= i < j < |names| :: Less(names[i], names[j])
  }

  lemma {:induction false} LessIrreflexive(a: string)
    ensures !Less(a, a)
  {
    if a != "" {
      LessIrreflexive(a[1..]);
    }
  }

  lemma {:induction false} LessTotal(a: string, b: string)
    ensures a == b || Less(a, b) || Less(b, a)
  {
    if a != "" && b != "" && a[0] == b[0] {
      LessTotal(a[1..], b[1..]);
      assert a == [a[0]] + a[1..] && b == [b[0]] + b[1..];
    }
  }

  lemma {:induction false} LessTransitive(a: string, b: string, c: string)
    requires Less(a, b) && Less(b, c)
    ensures Less(a, c)
  {
    if a != "" && a[0] == b[0] == c[0] {
      LessTransitive(a[1..], b[1..], c[1..]);
    }
  }

  /** A finite non-empty set of names has a first one. */
  lemma {:induction false} FirstExists(s: set<string>)
    requires s != {}
    ensures exists m :: m in s && forall x | x in s && x != m :: Less(m, x)
  {
    var x :| x in s;
    if s == {x} {
      assert x in s;
    } else {
      var rest := s - {x};
      FirstExists(rest);
      var m :| m in rest && forall y | y in rest && y != m :: Less(m, y);
      LessTotal(m, x);
      if Less(x, m) {
        forall y | y in s && y != x
          ensures Less(x, y)
        {
          if y != m {
            LessTransitive(x, m, y);
          }
        }
      } else {
        assert m in s && forall y | y in s && y != m :: Less(m, y);
      }
    }
  }

  ghost predicate Enumerates(names: seq<string>, s: set<string>) {
    Ascending(names) && forall n :: n in names <==> n in s
  }

  lemma {:induction false} ListingExists(s: set<string>)
    ensures exists names :: Enumerates(names, s)
    decreases |s|
  {
    if s == {} {
      assert Enumerates([], s);
    } else {
      FirstExists(s);
      var m :| m in s && forall x | x in s && x != m :: Less(m, x);
      ListingExists(s - {m});
      var rest :| Enumerates(rest, s - {m});
      assert forall j | 0 <= j < |rest| :: rest[j] in s - {m};
      assert Enumerates([m] + rest, s);
    }
  }

  /** The names of a set in ascending order. */
  ghost function Sorted(s: set<string>): (names: seq<string>)
    ensures Enumerates(names, s)
  {
    ListingExists(s);
    var names :| Enumerates(names, s);
    names
  }

  lemma {:induction false} AscendingUnique(a: seq<string>, b: seq<string>)
    requires Ascending(a) && Ascending(b)
    requires forall n :: n in a <==> n in b
    ensures a == b
    decreases |a|
  {
    assert b != [] ==> b[0] in b;
    if a != [] {
      assert a[0] in b && b != [] && b[0] in a;
      if a[0] != b[0] {
        LessIrreflexive(a[0]);
        LessTransitive(a[0], b[0], a[0]);
      }
      AscendingDistinct(a);
      AscendingDistinct(b);
      forall n
        ensures n in a[1..] <==> n in b[1..]
      {
        assert n in a[1..] <==> n in a && n != a[0];
        assert n in b[1..] <==> n in b && n != b[0];
      }
      AscendingUnique(a[1..], b[1..]);
    }
  }

  lemma AscendingDistinct(a: seq<string>)
    requires Ascending(a)
    ensures forall i, j | 0 <= i < j < |a| :: a[i] != a[j]
  {
    forall i, j | 0 <= i < j < |a|
      ensures a[i] != a[j]
    {
      assert Less(a[i], a[j]);
      LessIrreflexive(a[i]);
    }
  }

  lemma SortedIsThe(s: set<string>, names: seq<string>)
    requires Enumerates(names, s)
    ensures names == Sorted(s)
  {
    AscendingUnique(names, Sorted(s));
  }

  method SortNames(s: set<string>) returns (names: seq<string>)
    ensures names == Sorted(s)
  {
    var left := s;
    names := [];
    while left != {}
      invariant left <= s && Enumerates(names, s - left)
      invariant forall i, x | 0 <= i < |names| && x in left :: Less(names[i], x)
      decreases left
    {
      FirstExists(left);
      var m :| m in left && forall x | x in left && x != m :: Less(m, x);
      names, left := names + [m], left - {m};
    }
    SortedIsThe(s, names);
  }
}
