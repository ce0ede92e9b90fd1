/** The order in which a sorted directory listing is read. */
module Listing {

  /** Strict lexicographic order on names, as Array.prototype.sort has it. */
  predicate Less(a: string, b: string) {
    b != [] && (a == [] || a[0] < b[0] || (a[0] == b[0] && Less(a[1..], b[1..])))
  }

  lemma {:induction false} LessTransitive(a: string, b: string, c: string)
    requires Less(a, b) && Less(b, c)
    ensures Less(a, c)
  {
    if a != [] && a[0] == b[0] == c[0] {
      LessTransitive(a[1..], b[1..], c[1..]);
    }
  }

  lemma {:induction false} LessTotal(a: string, b: string)
    ensures a != b ==> Less(a, b) || Less(b, a)
    ensures !(Less(a, b) && Less(b, a))
    decreases |a|
  {
    if a != [] && b != [] {
      LessTotal(a[1..], b[1..]);
      assert a == [a[0]] + a[1..] && b == [b[0]] + b[1..];
    }
  }

  ghost predicate IsLeast(m: string, names: set<string>) {
    m in names && forall n :: n in names && n != m ==> Less(m, n)
  }

  lemma {:induction false} LeastExists(names: set<string>)
    requires names != {}
    ensures exists m :: IsLeast(m, names)
  {
    var x :| x in names;
    var rest := names - {x};
    if rest == {} {
      assert names == {x};
      assert IsLeast(x, names);
    } else {
      LeastExists(rest);
      var m :| IsLeast(m, rest);
      LessTotal(m, x);
      if Less(x, m) {
        forall n | n in names && n != x
          ensures Less(x, n)
        {
          if n != m {
            LessTransitive(x, m, n);
          }
        }
        assert IsLeast(x, names);
      } else {
        assert IsLeast(m, names);
      }
    }
  }

  ghost predicate Ascending(s: seq<string>) {
    forall i, j :: 0 <= i < j < |s| ==> Less(s[i], s[j])
  }

  lemma AscendingAppend(s: seq<string>, x: string)
    requires Ascending(s) && forall y :: y in s ==> Less(y, x)
    ensures Ascending(s + [x])
  {
    forall i, j | 0 <= i < j < |s + [x]|
      ensures Less((s + [x])[i], (s + [x])[j])
    {
      assert s[i] in s;
    }
  }

  /** readdirSync(dir).sort(): every name once, in order. */
  method Sorted(names: set<string>) returns (r: seq<string>)
    ensures Ascending(r)
    ensures forall n :: n in r <==> n in names
  {
    r := [];
    var todo := names;
    while todo != {}
      invariant Ascending(r)
      invariant forall n :: n in names <==> n in r || n in todo
      invariant forall i, n :: 0 <= i < |r| && n in todo ==> Less(r[i], n)
    {
      var m := Least(todo);
      r, todo := r + [m], todo - {m};
    }
  }

  method Least(names: set<string>) returns (m: string)
    requires names != {}
    ensures IsLeast(m, names)
  {
    LeastExists(names);
    m :| m in names;
    var todo := names - {m};
    while todo != {}
      invariant m in names && m !in todo && todo <= names
      invariant forall n :: n in names && n !in todo && n != m ==> Less(m, n)
    {
      var x :| x in todo;
      LessTotal(m, x);
      if Less(x, m) {
        forall n | n in names && n !in todo
          ensures n != m ==> Less(x, n)
        {
          if n != m {
            LessTransitive(x, m, n);
          }
        }
        m := x;
      }
      todo := todo - {x};
    }
  }

  /** An ascending list repeats nothing. */
  lemma Fresh(s: seq<string>, i: nat)
    requires Ascending(s) && i < |s|
    ensures s[i] !in s[..i]
  {
    if s[i] in s[..i] {
      var j :| 0 <= j < i && s[j] == s[i];
      LessTotal(s[j], s[i]);
    }
  }

  /** The first i names of a list. */
  ghost function Firsts(s: seq<string>, i: nat): set<string>
    requires i <= |s|
  {
    set n | n in s[..i]
  }

  lemma FirstsMore(s: seq<string>, i: nat)
    requires Ascending(s) && i < |s|
    ensures s[i] !in Firsts(s, i) && Firsts(s, i + 1) == Firsts(s, i) + {s[i]}
  {
    Fresh(s, i);
    assert s[..i + 1] == s[..i] + [s[i]];
  }

  lemma FirstsAll(s: seq<string>, names: set<string>)
    requires forall n :: n in s <==> n in names
    ensures Firsts(s, 0) == {} && Firsts(s, |s|) == names
  {
    assert s[..|s|] == s;
  }

  lemma SomeElement<T(!new)>(s: seq<T>)
    ensures s == [] || exists n :: n in s
  {
    if s != [] {
      assert s[0] in s;
    }
  }

  /** The sorted listing is unique: two ascending lists of the same names are the same. */
  lemma {:induction false} AscendingUnique(a: seq<string>, b: seq<string>)
    requires Ascending(a) && Ascending(b) && forall n :: n in a <==> n in b
    ensures a == b
  {
    SomeElement(a);
    SomeElement(b);
    if a != [] && b != [] {
      assert a[0] in b && b[0] in a;
      var i :| 0 <= i < |a| && a[i] == b[0];
      var j :| 0 <= j < |b| && b[j] == a[0];
      LessTotal(a[0], b[0]);
      assert a[0] == b[0];
      forall n
        ensures n in a[1..] <==> n in b[1..]
      {
        LessTotal(n, n);
        assert n in a ==> n == a[0] || n in a[1..];
        assert n in b ==> n == b[0] || n in b[1..];
      }
      AscendingUnique(a[1..], b[1..]);
      assert a == [a[0]] + a[1..] && b == [b[0]] + b[1..];
    }
  }

  // ---------------------------------------------------------------- lists without repeats

  /** s lists the set once each. */
  ghost predicate Lists<T(!new)>(s: seq<T>, elements: set<T>) {
    && (forall x :: x in s <==> x in elements)
    && (forall i, j :: 0 <= i < j < |s| ==> s[i] != s[j])
  }

  lemma ListsNothing<T(!new)>(s: seq<T>, elements: set<T>)
    requires Lists(s, elements)
    ensures s == [] <==> elements == {}
  {
    SomeElement(s);
    assert elements != {} ==> exists x :: x in elements;
  }

  lemma ListsConcat<T(!new)>(a: seq<T>, A: set<T>, b: seq<T>, B: set<T>)
    requires Lists(a, A) && Lists(b, B) && A !! B
    ensures Lists(a + b, A + B)
  {
    forall i, j | 0 <= i < j < |a + b|
      ensures (a + b)[i] != (a + b)[j]
    {
      if i < |a| <= j {
        assert a[i] in A && b[j - |a|] in B;
      }
    }
  }
}
