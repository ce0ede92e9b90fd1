/** Paths in the order a walk over sorted listings meets them. */
module PathOrder {
  import opened FileTree
  import Listing
  import Bytes

  /** Name by name; a folder before what is in it. */
  predicate PathLess(a: Path, b: Path) {
    b != [] && (a == [] || Listing.Less(a[0], b[0]) || (a[0] == b[0] && PathLess(a[1..], b[1..])))
  }

  lemma {:induction false} PathLessTransitive(a: Path, b: Path, c: Path)
    requires PathLess(a, b) && PathLess(b, c)
    ensures PathLess(a, c)
  {
    if a != [] {
      Listing.LessTotal(b[0], b[0]);
      if a[0] == b[0] == c[0] {
        PathLessTransitive(a[1..], b[1..], c[1..]);
      } else if Listing.Less(a[0], b[0]) && Listing.Less(b[0], c[0]) {
        Listing.LessTransitive(a[0], b[0], c[0]);
      }
    }
  }

  lemma {:induction false} PathLessTotal(a: Path, b: Path)
    ensures a != b ==> PathLess(a, b) || PathLess(b, a)
    ensures !(PathLess(a, b) && PathLess(b, a))
    decreases |a|
  {
    if a != [] && b != [] {
      Listing.LessTotal(a[0], b[0]);
      PathLessTotal(a[1..], b[1..]);
      assert a == [a[0]] + a[1..] && b == [b[0]] + b[1..];
    }
  }

  /** Under one folder, what lies under an earlier name comes first. */
  lemma {:induction false} PathLessUnder(p: Path, a: Path, b: Path)
    requires p < a && p < b && Listing.Less(a[|p|], b[|p|])
    ensures PathLess(a, b)
  {
    if p != [] {
      assert a[0] == p[0] == b[0] && a[1..][|p| - 1] == a[|p|] && b[1..][|p| - 1] == b[|p|];
      PathLessUnder(p[1..], a[1..], b[1..]);
    }
  }

  ghost predicate InOrder(s: seq<Path>) {
    forall i, j :: 0 <= i < j < |s| ==> PathLess(s[i], s[j])
  }

  lemma InOrderConcat(a: seq<Path>, b: seq<Path>)
    requires InOrder(a) && InOrder(b) && forall x, y :: x in a && y in b ==> PathLess(x, y)
    ensures InOrder(a + b)
  {
    forall i, j | 0 <= i < j < |a + b|
      ensures PathLess((a + b)[i], (a + b)[j])
    {
      if i < |a| <= j {
        assert a[i] in a && b[j - |a|] in b;
      }
    }
  }

  ghost predicate IsFirst(m: Path, paths: set<Path>) {
    m in paths && forall q :: q in paths && q != m ==> PathLess(m, q)
  }

  lemma {:induction false} FirstExists(paths: set<Path>)
    requires paths != {}
    ensures exists m :: IsFirst(m, paths)
  {
    var x :| x in paths;
    var rest := paths - {x};
    if rest == {} {
      assert paths == {x};
      assert IsFirst(x, paths);
    } else {
      FirstExists(rest);
      var m :| IsFirst(m, rest);
      PathLessTotal(m, x);
      if PathLess(x, m) {
        forall q | q in paths && q != x
          ensures PathLess(x, q)
        {
          if q != m {
            PathLessTransitive(x, m, q);
          }
        }
        assert IsFirst(x, paths);
      } else {
        assert IsFirst(m, paths);
      }
    }
  }

  /** A set of paths as a list in order. */
  ghost function Ordered(paths: set<Path>): (s: seq<Path>)
    ensures Listing.Lists(s, paths) && InOrder(s)
  {
    if paths == {} then [] else
    FirstExists(paths);
    var m :| IsFirst(m, paths);
    var rest := Ordered(paths - {m});
    assert forall k :: 0 <= k < |rest| ==> rest[k] in paths - {m};
    [m] + rest
  }

  /** There is only one such list. */
  lemma {:induction false} OrderedUnique(a: seq<Path>, b: seq<Path>, paths: set<Path>)
    requires Listing.Lists(a, paths) && InOrder(a) && Listing.Lists(b, paths) && InOrder(b)
    ensures a == b
  {
    Listing.SomeElement(a);
    Listing.SomeElement(b);
    if a != [] && b != [] {
      SameFirst(a, b);
      forall q
        ensures q in a[1..] <==> q in paths - {a[0]}
        ensures q in b[1..] <==> q in paths - {a[0]}
      {
        assert q in a <==> q == a[0] || q in a[1..];
        assert q in b <==> q == b[0] || q in b[1..];
      }
      OrderedUnique(a[1..], b[1..], paths - {a[0]});
      assert a == [a[0]] + a[1..] && b == [b[0]] + b[1..];
    }
  }

  lemma SameFirst(a: seq<Path>, b: seq<Path>)
    requires a != [] && b != [] && InOrder(a) && InOrder(b) && a[0] in b && b[0] in a
    ensures a[0] == b[0]
  {
    var i :| 0 <= i < |a| && a[i] == b[0];
    var j :| 0 <= j < |b| && b[j] == a[0];
    PathLessTotal(a[0], b[0]);
  }

  // ---------------------------------------------------------------- leaving some out

  /** A list without the elements that are skipped. */
  function Left(s: seq<Path>, skip: Path -> bool): (r: seq<Path>)
    ensures forall q :: q in r <==> q in s && !skip(q)
  {
    if s == [] then [] else
    assert s == s[..|s| - 1] + [s[|s| - 1]];
    Left(s[..|s| - 1], skip) + if skip(s[|s| - 1]) then [] else [s[|s| - 1]]
  }

  lemma {:induction false} LeftConcat(a: seq<Path>, b: seq<Path>, skip: Path -> bool)
    ensures Left(a + b, skip) == Left(a, skip) + Left(b, skip)
  {
    if b == [] {
      assert a + b == a;
    } else {
      var n := |b| - 1;
      LeftConcat(a, b[..n], skip);
      assert (a + b)[..|a + b| - 1] == a + b[..n] && (a + b)[|a + b| - 1] == b[n];
      Bytes.Associative(Left(a, skip), Left(b[..n], skip), if skip(b[n]) then [] else [b[n]]);
    }
  }

  /** What is left of an ordered list is the ordered list of what is left. */
  lemma ListedButLast(s: seq<Path>, paths: set<Path>)
    requires Listing.Lists(s, paths) && InOrder(s) && s != []
    ensures Listing.Lists(s[..|s| - 1], paths - {s[|s| - 1]}) && InOrder(s[..|s| - 1])
  {
    var most, last := s[..|s| - 1], s[|s| - 1];
    forall q
      ensures q in most <==> q in paths - {last}
    {
      assert q in s <==> q in most || q == last;
    }
  }

  lemma {:induction false} LeftOrdered(s: seq<Path>, paths: set<Path>, skip: Path -> bool)
    requires Listing.Lists(s, paths) && InOrder(s)
    ensures Listing.Lists(Left(s, skip), set q | q in paths && !skip(q)) && InOrder(Left(s, skip))
  {
    if s != [] {
      var n := |s| - 1;
      var last, most := s[n], s[..n];
      ListedButLast(s, paths);
      LeftOrdered(most, paths - {last}, skip);
      forall x | x in Left(most, skip)
        ensures PathLess(x, last) && x != last
      {
        var i :| 0 <= i < n && most[i] == x;
        PathLessTotal(x, last);
      }
      InOrderConcat(Left(most, skip), if skip(last) then [] else [last]);
    }
  }
}
