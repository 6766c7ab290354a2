/** Module names in Python's string order, and the list `sorted` makes of a set of them. */
module ModuleNames {
  type Name = string

  /** Lexicographic comparison by code point. */
  predicate Less(a: Name, b: Name) {
    b != [] && (a == [] || a[0] < b[0] || (a[0] == b[0] && Less(a[1..], b[1..])))
  }

  lemma {:induction false} LessIsTotal(a: Name, b: Name)
    ensures a == b || Less(a, b) || Less(b, a)
  {
    if a == [] || b == [] || a[0] != b[0] {
    } else {
      LessIsTotal(a[1..], b[1..]);
      assert a == [a[0]] + a[1..] && b == [b[0]] + b[1..];
    }
  }

  lemma {:induction false} LessIsAsymmetric(a: Name, b: Name)
    requires Less(a, b)
    ensures a != b && !Less(b, a)
  {
    if a == [] || a[0] != b[0] {
    } else {
      LessIsAsymmetric(a[1..], b[1..]);
    }
  }

  lemma {:induction false} LessIsTransitive(a: Name, b: Name, c: Name)
    requires Less(a, b) && Less(b, c)
    ensures Less(a, c)
  {
    if a == [] || a[0] != b[0] || b[0] != c[0] {
    } else {
      LessIsTransitive(a[1..], b[1..], c[1..]);
    }
  }

  lemma {:induction false} ExtensionIsGreater(a: Name, suffix: Name)
    requires suffix != []
    ensures Less(a, a + suffix)
  {
    if a == [] {
    } else {
      ExtensionIsGreater(a[1..], suffix);
      assert (a + suffix)[1..] == a[1..] + suffix;
    }
  }

  predicate IsLeast(m: Name, s: set<Name>) {
    m in s && forall x :: x in s && x != m ==> Less(m, x)
  }

  lemma {:induction false} LeastExists(s: set<Name>)
    requires s != {}
    ensures exists m :: IsLeast(m, s)
    decreases s
  {
    var a :| a in s;
    var rest := s - {a};
    if rest == {} {
      assert s == rest + {a};
      assert IsLeast(a, s);
    } else {
      LeastExists(rest);
      var m :| IsLeast(m, rest);
      LessIsTotal(a, m);
      if Less(m, a) {
        assert IsLeast(m, s);
      } else {
        forall x | x in s && x != a ensures Less(a, x) {
          if x != m {
            LessIsTransitive(a, m, x);
          }
        }
        assert IsLeast(a, s);
      }
    }
  }

  lemma LeastIsUnique(s: set<Name>)
    ensures forall m, n :: IsLeast(m, s) && IsLeast(n, s) ==> m == n
  {
    forall m, n | IsLeast(m, s) && IsLeast(n, s) ensures m == n {
      if m != n {
        LessIsAsymmetric(m, n);
      }
    }
  }

  ghost predicate Ascending(r: seq<Name>) {
    forall i, j :: 0 <= i < j < |r| ==> Less(r[i], r[j])
  }

  /** Python's `sorted` on a set of names. */
  function SortedNames(s: set<Name>): (r: seq<Name>)
    ensures forall x :: x in r <==> x in s
    ensures Ascending(r)
    decreases s
  {
    if s == {} then
      []
    else
      LeastExists(s);
      LeastIsUnique(s);
      var m :| m in s && IsLeast(m, s);
      [m] + SortedNames(s - {m})
  }

  /** A list in ascending order is what `sorted` returns for its set of elements. */
  lemma {:induction false} SortedNamesIsUnique(s: set<Name>, r: seq<Name>)
    requires Ascending(r)
    requires forall x :: x in r <==> x in s
    ensures SortedNames(s) == r
    decreases s
  {
    if r == [] {
      assert s == {};
    } else {
      assert r[0] in s;
      var t := SortedNames(s);
      assert IsLeast(r[0], s);
      assert t != [] && t[0] in s && IsLeast(t[0], s);
      LeastIsUnique(s);
      assert r[0] == t[0];
      forall x ensures x in r[1..] <==> x in s - {r[0]} {
        if x in r[1..] {
          LessIsAsymmetric(r[0], x);
        }
      }
      SortedNamesIsUnique(s - {r[0]}, r[1..]);
    }
  }
}
