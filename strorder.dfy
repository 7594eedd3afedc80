/**
 * Python's `sorted` over a set of byte strings: the order in which `sorted`
 * lists the keys of a dict of names, lexicographic by character code with a
 * prefix before any longer string.
 */
module StringOrder {

  /** `a <= b` between Python strings. */
  predicate Below(a: string, b: string)
    decreases |a|
  {
    a == [] || (b != [] && (a[0] < b[0] || (a[0] == b[0] && Below(a[1..], b[1..]))))
  }

  lemma {:induction false} BelowReflexive(a: string)
    ensures Below(a, a)
    decreases |a|
  {
    if a != [] {
      BelowReflexive(a[1..]);
    }
  }

  lemma {:induction false} BelowAntisymmetric(a: string, b: string)
    requires Below(a, b) && Below(b, a)
    ensures a == b
    decreases |a|
  {
    if a != [] && b != [] {
      BelowAntisymmetric(a[1..], b[1..]);
      assert a == [a[0]] + a[1..] && b == [b[0]] + b[1..];
    }
  }

  lemma {:induction false} BelowTransitive(a: string, b: string, c: string)
    requires Below(a, b) && Below(b, c)
    ensures Below(a, c)
    decreases |a|
  {
    if a != [] && b != [] && c != [] && a[0] == b[0] && b[0] == c[0] {
      BelowTransitive(a[1..], b[1..], c[1..]);
    }
  }

  lemma {:induction false} BelowTotal(a: string, b: string)
    ensures Below(a, b) || Below(b, a)
    decreases |a|
  {
    if a != [] && b != [] && a[0] == b[0] {
      BelowTotal(a[1..], b[1..]);
    }
  }

  /** m comes first among the strings of s. */
  predicate IsLeast(m: string, s: set<string>)
  {
    m in s && forall x :: x in s ==> Below(m, x)
  }

  lemma {:induction false} LeastExists(s: set<string>)
    requires s != {}
    ensures exists m :: IsLeast(m, s)
    decreases |s|
  {
    var x :| x in s;
    if s != {x} {
      var rest := s - {x};
      LeastExists(rest);
      var m :| IsLeast(m, rest);
      BelowTotal(x, m);
      if Below(x, m) {
        forall y | y in s
          ensures Below(x, y)
        {
          if y == x {
            BelowReflexive(x);
          } else {
            BelowTransitive(x, m, y);
          }
        }
        assert IsLeast(x, s);
      } else {
        assert IsLeast(m, s);
      }
    } else {
      BelowReflexive(x);
      assert IsLeast(x, s);
    }
  }

  lemma LeastUnique(s: set<string>)
    ensures forall m, m' :: IsLeast(m, s) && IsLeast(m', s) ==> m == m'
  {
    forall m, m' | IsLeast(m, s) && IsLeast(m', s)
      ensures m == m'
    {
      BelowAntisymmetric(m, m');
    }
  }

  /** The first string of a non-empty set. */
  function Least(s: set<string>): (m: string)
    requires s != {}
    ensures IsLeast(m, s)
  {
    LeastExists(s);
    LeastUnique(s);
    var m :| IsLeast(m, s);
    m
  }

  /** Strictly increasing: every later string is greater and different. */
  predicate Increasing(r: seq<string>)
  {
    forall i, j :: 0 <= i < j < |r| ==> Below(r[i], r[j]) && r[i] != r[j]
  }

  /** `sorted(d)` for a dict d with keys s: every key once, in increasing order. */
  function Sorted(s: set<string>): (r: seq<string>)
    ensures |r| == |s| && Increasing(r)
    ensures forall x :: x in r <==> x in s
    decreases s
  {
    if s == {} then []
    else
      var m := Least(s);
      var rest := Sorted(s - {m});
      LeastFirst(m, rest, s);
      [m] + rest
  }

  /** The least string, then an increasing listing of the others, is an increasing listing of all. */
  lemma LeastFirst(m: string, rest: seq<string>, s: set<string>)
    requires IsLeast(m, s) && Increasing(rest) && forall x :: x in rest <==> x in s - {m}
    ensures Increasing([m] + rest) && forall x :: x in [m] + rest <==> x in s
  {
    var r := [m] + rest;
    forall i, j | 0 <= i < j < |r|
      ensures Below(r[i], r[j]) && r[i] != r[j]
    {
      assert r[j] == rest[j - 1] && rest[j - 1] in rest;
      if i > 0 {
        assert r[i] == rest[i - 1];
      } else {
        assert rest[j - 1] in s - {m};
      }
    }
  }

  /** The first string of an increasing listing is the least one. */
  lemma FirstIsLeast(r: seq<string>, s: set<string>)
    requires r != [] && Increasing(r) && forall x :: x in r <==> x in s
    ensures IsLeast(r[0], s)
  {
    forall x | x in s
      ensures Below(r[0], x)
    {
      var j :| 0 <= j < |r| && r[j] == x;
      if j == 0 {
        BelowReflexive(x);
      }
    }
  }

  /** The rest of an increasing listing lists the other strings. */
  lemma RestLists(r: seq<string>, s: set<string>)
    requires r != [] && Increasing(r) && forall x :: x in r <==> x in s
    ensures Increasing(r[1..]) && forall x :: x in r[1..] <==> x in s - {r[0]}
  {
    var rest := r[1..];
    assert forall i :: 0 <= i < |rest| ==> rest[i] == r[i + 1];
    forall x
      ensures x in rest <==> x in s - {r[0]}
    {
      if x in rest {
        var j :| 0 <= j < |rest| && rest[j] == x;
        assert r[j + 1] == x && r[0] != r[j + 1];
      }
      if x in s - {r[0]} {
        var j :| 0 <= j < |r| && r[j] == x;
        assert rest[j - 1] == x;
      }
    }
  }

  /** There is only one increasing listing of a set: `sorted` is determined by the keys alone. */
  lemma {:induction false} IncreasingUnique(r: seq<string>, s: set<string>)
    requires Increasing(r) && forall x :: x in r <==> x in s
    ensures r == Sorted(s)
    decreases |r|
  {
    if r == [] {
      assert s == {};
    } else {
      var m, rest := r[0], r[1..];
      assert Least(s) == m by {
        FirstIsLeast(r, s);
        LeastUnique(s);
      }
      assert Sorted(s) == [m] + Sorted(s - {m});
      RestLists(r, s);
      IncreasingUnique(rest, s - {m});
      assert r == [m] + rest;
    }
  }
}
