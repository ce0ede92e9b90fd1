/** Relative paths as text: slashes, segments, and which of them a pack or a snapshot may hold. */
module PathText {
  import opened Bytes
  import opened FileTree

  /** s.split('/'). */
  function Split(s: string): (parts: seq<string>)
    ensures |parts| >= 1
  {
    if s == "" then [""]
    else if s[0] == '/' then [""] + Split(s[1..])
    else [[s[0]] + Split(s[1..])[0]] + Split(s[1..])[1..]
  }

  function Join(p: Path): string {
    if p == [] then "" else if |p| == 1 then p[0] else p[0] + "/" + Join(p[1..])
  }

  lemma {:induction false} SplitName(name: string)
    requires '/' !in name
    ensures Split(name) == [name]
  {
    if name != "" {
      SplitName(name[1..]);
      assert name == [name[0]] + name[1..];
    }
  }

  lemma {:induction false} SplitFirst(name: string, rest: string)
    requires '/' !in name
    ensures Split(name + "/" + rest) == [name] + Split(rest)
  {
    var s := name + "/" + rest;
    if name == "" {
      assert s[1..] == rest;
    } else {
      SplitFirst(name[1..], rest);
      assert s[1..] == name[1..] + "/" + rest;
      assert name == [name[0]] + name[1..];
    }
  }

  /** Joining names and splitting again gives the names back. */
  lemma {:induction false} SplitJoin(p: Path)
    requires p != [] && forall i :: 0 <= i < |p| ==> '/' !in p[i]
    ensures Split(Join(p)) == p
  {
    if |p| == 1 {
      SplitName(p[0]);
    } else {
      SplitFirst(p[0], Join(p[1..]));
      SplitJoin(p[1..]);
    }
  }

  /** A path followed by a slash and more text splits into its names and what the text splits into. */
  lemma {:induction false} SplitPath(p: Path, rest: string)
    requires p != [] && forall i :: 0 <= i < |p| ==> '/' !in p[i]
    ensures Split(Join(p) + "/" + rest) == p + Split(rest)
  {
    if |p| == 1 {
      SplitFirst(p[0], rest);
    } else {
      SplitPath(p[1..], rest);
      SplitFirst(p[0], Join(p[1..]) + "/" + rest);
      JoinedAhead(p, rest);
      Associative([p[0]], p[1..], Split(rest));
      assert p == [p[0]] + p[1..];
    }
  }

  lemma JoinedAhead(p: Path, rest: string)
    requires |p| > 1
    ensures Join(p) + "/" + rest == p[0] + "/" + (Join(p[1..]) + "/" + rest)
  {
    FourParts(p[0] + "/", Join(p[1..]), "/", rest);
  }

  lemma FourParts(a: string, b: string, c: string, d: string)
    ensures a + b + c + d == a + (b + c + d)
  {
  }

  /** Joining two paths. */
  lemma {:induction false} JoinConcat(p: Path, q: Path)
    requires p != [] && q != []
    ensures Join(p + q) == Join(p) + "/" + Join(q)
  {
    if |p| == 1 {
      assert (p + q)[1..] == q;
    } else {
      JoinConcat(p[1..], q);
      assert (p + q)[1..] == p[1..] + q;
      FourParts(p[0] + "/", Join(p[1..]), "/", Join(q));
    }
  }

  predicate IsLetter(c: char) {
    'a' <= c <= 'z' || 'A' <= c <= 'Z'
  }

  /** /^[A-Za-z]:/ */
  predicate Drive(s: string) {
    |s| >= 2 && IsLetter(s[0]) && s[1] == ':'
  }

  /** In codes of characters: a letter of either case, a colon. */
  lemma DriveIs(s: string)
    ensures Drive(s) ==> |s| >= 2 && s[1] as int == 58 && (65 <= s[0] as int <= 90 || 97 <= s[0] as int <= 122)
    ensures |s| >= 2 && s[1] as int == 58 && (65 <= s[0] as int <= 90 || 97 <= s[0] as int <= 122) ==> Drive(s)
  {
  }

  predicate StartsWith(s: string, head: string) {
    |head| <= |s| && s[..|head|] == head
  }

  function DropDot(s: string): string {
    if StartsWith(s, "./") then s[2..] else s
  }

  /** A name as a file system lists it. */
  predicate Ordinary(n: Name) {
    n !in {"", ".", ".."} && '/' !in n
  }

  predicate AllOrdinary(p: Path) {
    forall i | 0 <= i < |p| :: Ordinary(p[i])
  }

  /** Splitting a text and joining again gives the text back. */
  lemma {:induction false} JoinSplit(s: string)
    ensures Join(Split(s)) == s
  {
    if s != "" {
      JoinSplit(s[1..]);
      if s[0] == '/' {
        assert (([""] + Split(s[1..]))[1..]) == Split(s[1..]);
        assert s == "" + "/" + s[1..];
      } else {
        JoinHead(s[0], Split(s[1..]));
        assert s == [s[0]] + s[1..];
      }
    }
  }

  lemma JoinHead(c: char, parts: seq<string>)
    requires parts != []
    ensures Join([[c] + parts[0]] + parts[1..]) == [c] + Join(parts)
  {
    var longer := [[c] + parts[0]] + parts[1..];
    if |parts| > 1 {
      assert longer[1..] == parts[1..];
      FourParts([c], parts[0], "/", Join(parts[1..]));
    }
  }

  lemma {:induction false} JoinShape(p: Path)
    requires p != [] && forall i :: 0 <= i < |p| ==> Ordinary(p[i])
    ensures Join(p) != "" && Join(p)[|Join(p)| - 1] != '/' && p[0] <= Join(p)
    ensures |p| > 1 ==> Join(p)[|p[0]|] == '/'
    ensures |p| == 1 ==> Join(p) == p[0]
  {
    if |p| > 1 {
      JoinShape(p[1..]);
    } else {
      assert Ordinary(p[0]) && p[0][|p[0]| - 1] in p[0];
    }
  }

  /** A text whose first segment is an ordinary name starts with no slash and no "./", and with a
      drive only if the name does. */
  lemma FirstSegment(name: Name, s: string)
    requires Ordinary(name) && name <= s && (|s| == |name| || s[|name|] == '/')
    ensures s != "" && s[0] != '/' && !StartsWith(s, "./") && (Drive(s) <==> Drive(name))
  {
    assert name[0] in name && s[0] == name[0];
    if |name| == 1 {
      assert name == [name[0]];
    } else {
      assert name[1] in name && s[1] == name[1];
    }
  }

  lemma JoinStart(p: Path)
    requires p != [] && forall i :: 0 <= i < |p| ==> Ordinary(p[i])
    ensures Join(p) != "" && Join(p)[0] != '/' && !StartsWith(Join(p), "./") && (Drive(Join(p)) <==> Drive(p[0]))
  {
    JoinShape(p);
    FirstSegment(p[0], Join(p));
  }
}
