/**
 * The orders Python's `sorted` uses on the keys the scripts sort:
 * strings compare character by character (code point order, a proper
 * prefix first), integers numerically.
 */
module Order {

  /** Python's `a < b` on `str`. */
  predicate Less(a: string, b: string)
    decreases |a|
  {
    |b| > 0 && (|a| == 0 || a[0] < b[0] || (a[0] == b[0] && Less(a[1..], b[1..])))
  }

  lemma {:induction false} LessIrreflexive(a: string)
    ensures !Less(a, a)
    decreases |a|
  {
    if |a| > 0 {
      LessIrreflexive(a[1..]);
    }
  }

  lemma {:induction false} LessAsymmetric(a: string, b: string)
    requires Less(a, b)
    ensures !Less(b, a)
    decreases |a|
  {
    if |a| > 0 && a[0] == b[0] {
      LessAsymmetric(a[1..], b[1..]);
    }
  }

  lemma {:induction false} LessTransitive(a: string, b: string, c: string)
    requires Less(a, b) && Less(b, c)
    ensures Less(a, c)
    decreases |a|
  {
    if |a| > 0 && a[0] == b[0] && b[0] == c[0] {
      LessTransitive(a[1..], b[1..], c[1..]);
    }
  }

  lemma {:induction false} LessTotal(a: string, b: string)
    requires a != b
    ensures Less(a, b) || Less(b, a)
    decreases |a|
  {
    if |a| > 0 && |b| > 0 && a[0] == b[0] {
      LessTotal(a[1..], b[1..]);
    }
  }

  /** `r` lists its strings in strictly ascending order (hence without repeats). */
  ghost predicate Ascending(r: seq<string>)
  {
    forall i, j :: 0 <= i < j < |r| ==> Less(r[i], r[j])
  }

  /** Neighbours in order make the whole sequence ascending. */
  lemma {:induction false} AscendingFromNeighbours(r: seq<string>)
    requires forall i :: 0 <= i < |r| - 1 ==> Less(r[i], r[i + 1])
    ensures Ascending(r)
    decreases |r|
  {
    if |r| > 1 {
      AscendingFromNeighbours(r[1..]);
      forall j | 1 < j < |r|
        ensures Less(r[0], r[j])
      {
        assert Less(r[1..][0], r[1..][j - 1]);
        LessTransitive(r[0], r[1], r[j]);
      }
      forall i, j | 0 <= i < j < |r|
        ensures Less(r[i], r[j])
      {
        if 0 < i {
          assert Less(r[1..][i - 1], r[1..][j - 1]);
        }
      }
    }
  }

  /** `r` holds exactly the strings of `s`. */
  ghost predicate Lists(r: seq<string>, s: set<string>)
  {
    forall x :: x in r <==> x in s
  }

  predicate IsLeast(m: string, s: set<string>)
  {
    m in s && forall x :: x in s && x != m ==> Less(m, x)
  }

  lemma {:induction false} LeastExists(s: set<string>)
    requires s != {}
    ensures exists m :: IsLeast(m, s)
    decreases |s|
  {
    var y :| y in s;
    if s == {y} {
      assert IsLeast(y, s);
    } else {
      LeastExists(s - {y});
      var m :| IsLeast(m, s - {y});
      if Less(m, y) {
        assert IsLeast(m, s);
      } else {
        LessTotal(m, y);
        forall x | x in s && x != y
          ensures Less(y, x)
        {
          if x != m {
            LessTransitive(y, m, x);
          }
        }
        assert IsLeast(y, s);
      }
    }
  }

  lemma LeastUnique(s: set<string>, m: string, n: string)
    requires IsLeast(m, s) && IsLeast(n, s)
    ensures m == n
  {
    if m != n {
      LessAsymmetric(m, n);
    }
  }

  /** The smallest string of a non-empty set. */
  function Smallest(s: set<string>): (m: string)
    requires s != {}
    ensures m in s
    ensures forall x :: x in s && x != m ==> Less(m, x)
  {
    LeastExists(s);
    assert forall m, n :: IsLeast(m, s) && IsLeast(n, s) ==> m == n by {
      forall m, n | IsLeast(m, s) && IsLeast(n, s)
        ensures m == n
      {
        LeastUnique(s, m, n);
      }
    }
    var m :| IsLeast(m, s);
    m
  }

  /** Python's `sorted(keys)` for a set of strings. */
  function SortedStrings(s: set<string>): (r: seq<string>)
    ensures |r| == |s|
    ensures Lists(r, s)
    ensures Ascending(r)
    decreases |s|
  {
    if s == {} then []
    else
      var m := Smallest(s);
      var rest := SortedStrings(s - {m});
      SortedStringsStep(s, m, rest);
      [m] + rest
  }

  lemma SortedStringsStep(s: set<string>, m: string, rest: seq<string>)
    requires IsLeast(m, s)
    requires |rest| == |s - {m}| && Ascending(rest)
    requires Lists(rest, s - {m})
    ensures |[m] + rest| == |s| && Ascending([m] + rest)
    ensures Lists([m] + rest, s)
  {
    var r := [m] + rest;
    forall i, j | 0 <= i < j < |r|
      ensures Less(r[i], r[j])
    {
      if i == 0 {
        assert r[j] == rest[j - 1] && r[j] in s - {m};
      }
    }
  }

  /** A strictly ascending listing of a set is the sorted one. */
  lemma {:induction false} SortedStringsUnique(r: seq<string>, s: set<string>)
    requires Ascending(r)
    requires Lists(r, s)
    ensures r == SortedStrings(s)
    decreases |r|
  {
    if r == [] {
      assert s == {};
    } else {
      var m := r[0];
      HeadIsLeast(r, s);
      LeastUnique(s, m, Smallest(s));
      TailLists(r, s);
      SortedStringsUnique(r[1..], s - {m});
      calc {
        SortedStrings(s);
        [Smallest(s)] + SortedStrings(s - {Smallest(s)});
        [m] + r[1..];
        r;
      }
    }
  }

  lemma HeadIsLeast(r: seq<string>, s: set<string>)
    requires r != [] && Ascending(r)
    requires Lists(r, s)
    ensures IsLeast(r[0], s)
  {
    forall x | x in s && x != r[0]
      ensures Less(r[0], x)
    {
      var j :| 0 <= j < |r| && r[j] == x;
    }
  }

  lemma TailLists(r: seq<string>, s: set<string>)
    requires r != [] && Ascending(r)
    requires Lists(r, s)
    ensures Ascending(r[1..])
    ensures Lists(r[1..], s - {r[0]})
  {
    var tail := r[1..];
    forall x
      ensures x in tail <==> x in s - {r[0]}
    {
      if x in tail {
        var j :| 0 <= j < |tail| && tail[j] == x;
        assert Less(r[0], r[j + 1]);
        LessIrreflexive(x);
      }
      if x in s - {r[0]} {
        var j :| 0 <= j < |r| && r[j] == x;
        assert tail[j - 1] == x;
      }
    }
  }
}

/** Python's `sorted` on a set of integer keys. */
module IntOrder {

  /** `r` lists its integers in strictly ascending order. */
  ghost predicate AscendingInts(r: seq<int>)
  {
    forall i, j :: 0 <= i < j < |r| ==> r[i] < r[j]
  }

  lemma Pick(s: set<int>) returns (y: int)
    requires s != {}
    ensures y in s
  {
    if forall x :: x !in s {
      assert false;
    }
    y :| y in s;
  }

  /** A least element of a non-empty finite set of integers. */
  lemma {:induction false} LeastInt(s: set<int>) returns (m: int)
    requires s != {}
    ensures m in s && forall x :: x in s ==> m <= x
    decreases |s|
  {
    var y := Pick(s);
    var rest := s - {y};
    if rest == {} {
      m := y;
    } else {
      var k := LeastInt(rest);
      m := if y < k then y else k;
    }
    forall x | x in s
      ensures m <= x
    {
      if x != y {
        assert x in rest;
      }
    }
  }

  lemma LeastIntExists(s: set<int>)
    requires s != {}
    ensures exists m :: m in s && forall x :: x in s ==> m <= x
  {
    var m := LeastInt(s);
  }

  /** The smallest integer of a non-empty set. */
  function SmallestInt(s: set<int>): (m: int)
    requires s != {}
    ensures m in s
    ensures forall x :: x in s ==> m <= x
  {
    LeastIntExists(s);
    var m :| m in s && forall x :: x in s ==> m <= x;
    m
  }

  /** Python's `sorted(keys)` for a set of integers. */
  function SortedInts(s: set<int>): (r: seq<int>)
    ensures |r| == |s|
    ensures forall x :: x in r <==> x in s
    ensures AscendingInts(r)
    decreases |s|
  {
    if s == {} then []
    else
      var m := SmallestInt(s);
      var rest := SortedInts(s - {m});
      SortedIntsStep(s, m, rest);
      [m] + rest
  }

  lemma SortedIntsStep(s: set<int>, m: int, rest: seq<int>)
    requires m in s && forall x :: x in s ==> m <= x
    requires |rest| == |s - {m}| && AscendingInts(rest)
    requires forall x :: x in rest <==> x in s - {m}
    ensures |[m] + rest| == |s| && AscendingInts([m] + rest)
    ensures forall x :: x in [m] + rest <==> x in s
  {
    var r := [m] + rest;
    forall i, j | 0 <= i < j < |r|
      ensures r[i] < r[j]
    {
      if i == 0 {
        assert r[j] == rest[j - 1] && r[j] in s - {m};
      }
    }
  }
}
