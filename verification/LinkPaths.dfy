/** Where a link leads, and the text comparison that decides whether a snapshot may hold it. */
module LinkPaths {
  import opened FileTree
  import opened PathText

  /** path.resolve on a folder and the segments of a path. */
  function Resolve(dir: Path, parts: seq<string>): Path
    decreases |parts|
  {
    if parts == [] then dir
    else if parts[0] in {"", "."} then Resolve(dir, parts[1..])
    else if parts[0] == ".." then Resolve(if dir == [] then [] else Parent(dir), parts[1..])
    else Resolve(dir + [parts[0]], parts[1..])
  }

  function Absolute(p: Path): string {
    "/" + Join(p)
  }

  predicate IsAbsolute(target: string) {
    StartsWith(target, "/")
  }

  // ---------------------------------------------------------------- the code's test

  /** The text the script compares: an absolute target as it stands, a relative one resolved. */
  function Lands(stateDir: Path, rel: Path, target: string): string
    requires rel != []
  {
    if IsAbsolute(target) then target else Absolute(Resolve(stateDir + Parent(rel), Split(target)))
  }

  /** The state directory itself, or a text that begins with it and a slash. */
  predicate TextInside(stateDir: Path, lands: string) {
    lands == Absolute(stateDir) || StartsWith(lands, Absolute(stateDir) + "/")
  }

  predicate Passes(stateDir: Path, rel: Path, target: string)
    requires rel != []
  {
    TextInside(stateDir, Lands(stateDir, rel, target))
  }

  // ---------------------------------------------------------------- where a link leads

  /** A link at rel in the state directory leads here, name by name: an absolute target from the
      root, a relative one from the link's own folder. */
  function LeadsTo(stateDir: Path, rel: Path, target: string): Path
    requires rel != []
  {
    Resolve(if IsAbsolute(target) then [] else stateDir + Parent(rel), Split(target))
  }

  predicate LeadsInside(stateDir: Path, rel: Path, target: string)
    requires rel != []
  {
    stateDir <= LeadsTo(stateDir, rel, target)
  }

  /** A state directory as path.resolve gives it, other than the root. */
  predicate ProperDir(stateDir: Path) {
    stateDir != [] && AllOrdinary(stateDir)
  }

  predicate Begins(stateDir: Path, target: string) {
    StartsWith(target, Absolute(stateDir) + "/")
  }

  function Rest(stateDir: Path, target: string): string
    requires Begins(stateDir, target)
  {
    target[|Absolute(stateDir)| + 1..]
  }

  /** An absolute target that begins with the state directory, and whose rest climbs out of it. */
  predicate ClimbsOut(stateDir: Path, target: string) {
    Begins(stateDir, target) && !(stateDir <= Resolve(stateDir, Split(Rest(stateDir, target))))
  }

  /** An absolute target that leads into the state directory without beginning with it. */
  predicate Roundabout(stateDir: Path, target: string) {
    && IsAbsolute(target) && target != Absolute(stateDir) && !Begins(stateDir, target)
    && stateDir <= Resolve([], Split(target))
  }

  // ---------------------------------------------------------------- resolving

  lemma {:induction false} ResolveAlong(dir: Path, p: Path, parts: seq<string>)
    requires AllOrdinary(p)
    ensures Resolve(dir, p + parts) == Resolve(dir + p, parts)
    decreases |p|
  {
    if p == [] {
      assert p + parts == parts && dir + p == dir;
    } else {
      assert Ordinary(p[0]);
      assert (p + parts)[1..] == p[1..] + parts && dir + [p[0]] + p[1..] == dir + p;
      ResolveAlong(dir + [p[0]], p[1..], parts);
    }
  }

  /** Without a "..", resolving only goes down. */
  lemma {:induction false} ResolveDown(dir: Path, parts: seq<string>)
    requires ".." !in parts
    ensures dir <= Resolve(dir, parts)
    decreases |parts|
  {
    if parts != [] {
      assert parts[0] in parts && forall x :: x in parts[1..] ==> x in parts;
      ResolveDown(dir, parts[1..]);
      ResolveDown(dir + [parts[0]], parts[1..]);
      assert dir <= dir + [parts[0]];
    }
  }

  lemma {:induction false} ResolvedOrdinary(dir: Path, parts: seq<string>)
    requires AllOrdinary(dir) && forall i :: 0 <= i < |parts| ==> '/' !in parts[i]
    ensures AllOrdinary(Resolve(dir, parts))
    decreases |parts|
  {
    if parts != [] {
      var next := if parts[0] in {"", "."} then dir
                  else if parts[0] == ".." then (if dir == [] then [] else Parent(dir))
                  else dir + [parts[0]];
      ResolvedOrdinary(next, parts[1..]);
    }
  }

  lemma {:induction false} SplitHasNoSlash(s: string)
    ensures forall i :: 0 <= i < |Split(s)| ==> '/' !in Split(s)[i]
  {
    if s != "" {
      SplitHasNoSlash(s[1..]);
    }
  }

  lemma SplitAbsolute(p: Path)
    requires ProperDir(p)
    ensures Split(Absolute(p)) == [""] + p
  {
    SplitJoin(p);
    assert Absolute(p)[1..] == Join(p);
  }

  lemma SplitBegins(stateDir: Path, rest: string)
    requires ProperDir(stateDir)
    ensures Split(Absolute(stateDir) + "/" + rest) == [""] + (stateDir + Split(rest))
  {
    var s := Absolute(stateDir) + "/" + rest;
    SplitPath(stateDir, rest);
    assert s[0] == '/' && s[1..] == Join(stateDir) + "/" + rest;
  }

  lemma BeginsIs(stateDir: Path, target: string)
    requires Begins(stateDir, target)
    ensures target == Absolute(stateDir) + "/" + Rest(stateDir, target) && IsAbsolute(target)
  {
    assert target[0] == Absolute(stateDir)[0] && target[..1] == [target[0]];
  }

  /** The state directory's own text leads to it, and what begins with it goes on from it. */
  lemma ResolveFromRoot(stateDir: Path, target: string)
    requires ProperDir(stateDir)
    ensures Resolve([], Split(Absolute(stateDir))) == stateDir
    ensures Begins(stateDir, target) ==>
      Resolve([], Split(target)) == Resolve(stateDir, Split(Rest(stateDir, target)))
  {
    SplitAbsolute(stateDir);
    assert ([""] + stateDir)[1..] == stateDir == stateDir + [];
    assert [] + stateDir == stateDir;
    ResolveAlong([], stateDir, []);
    if Begins(stateDir, target) {
      var parts := Split(Rest(stateDir, target));
      BeginsIs(stateDir, target);
      SplitBegins(stateDir, Rest(stateDir, target));
      assert ([""] + (stateDir + parts))[1..] == stateDir + parts;
      ResolveAlong([], stateDir, parts);
    }
  }

  // ---------------------------------------------------------------- texts and paths

  /** Absolute paths in normal form compare as texts as they do name by name. */
  lemma InsideIsBelow(stateDir: Path, p: Path)
    requires ProperDir(stateDir) && AllOrdinary(p)
    ensures TextInside(stateDir, Absolute(p)) <==> stateDir <= p
  {
    if stateDir <= p {
      BelowIsInside(stateDir, p);
    }
    if TextInside(stateDir, Absolute(p)) {
      InsideIsUnder(stateDir, p);
    }
  }

  lemma BelowIsInside(stateDir: Path, p: Path)
    requires stateDir != [] && stateDir <= p
    ensures TextInside(stateDir, Absolute(p))
  {
    if stateDir != p {
      var rest := p[|stateDir|..];
      JoinConcat(stateDir, rest);
      assert p == stateDir + rest;
      assert Absolute(p) == Absolute(stateDir) + "/" + Join(rest);
    }
  }

  lemma InsideIsUnder(stateDir: Path, p: Path)
    requires ProperDir(stateDir) && AllOrdinary(p) && TextInside(stateDir, Absolute(p))
    ensures stateDir <= p
  {
    var d, s := Join(stateDir), Absolute(p);
    JoinShape(stateDir);
    assert Join(p) == s[1..];
    assert p != [];
    SplitJoin(p);
    if s == Absolute(stateDir) {
      assert Join(p) == d;
      SplitJoin(stateDir);
    } else {
      var rest := s[|d| + 2..];
      TailOf(s, d, rest);
      SplitPath(stateDir, rest);
    }
  }

  lemma TailOf(s: string, d: string, rest: string)
    requires StartsWith(s, "/" + d + "/") && rest == s[|d| + 2..]
    ensures s[1..] == d + "/" + rest
  {
    assert s == "/" + d + "/" + rest;
  }

  // ---------------------------------------------------------------- what the test lets through

  /** A relative link passes exactly when it leads inside. */
  lemma RelativeLink(stateDir: Path, rel: Path, target: string)
    requires ProperDir(stateDir) && rel != [] && AllOrdinary(rel) && !IsAbsolute(target)
    ensures Passes(stateDir, rel, target) <==> LeadsInside(stateDir, rel, target)
  {
    SplitHasNoSlash(target);
    ResolvedOrdinary(stateDir + Parent(rel), Split(target));
    InsideIsBelow(stateDir, Resolve(stateDir + Parent(rel), Split(target)));
  }

  /** The test and the promise disagree in two ways, and exactly then: a link that passes leads
      outside when it begins with the state directory and its rest climbs out; one that leads
      inside is refused when it is absolute and does not begin with the state directory. */
  lemma LinkTest(stateDir: Path, rel: Path, target: string)
    requires ProperDir(stateDir) && rel != [] && AllOrdinary(rel)
    ensures Passes(stateDir, rel, target) && !LeadsInside(stateDir, rel, target) <==> ClimbsOut(stateDir, target)
    ensures !Passes(stateDir, rel, target) && LeadsInside(stateDir, rel, target) <==> Roundabout(stateDir, target)
  {
    if Begins(stateDir, target) {
      BeginsIs(stateDir, target);
    }
    if IsAbsolute(target) {
      ResolveFromRoot(stateDir, target);
    } else {
      RelativeLink(stateDir, rel, target);
    }
  }

  /** An absolute target without a ".." that passes leads inside. */
  lemma NoClimbing(stateDir: Path, rel: Path, target: string)
    requires ProperDir(stateDir) && rel != [] && AllOrdinary(rel)
    requires !IsAbsolute(target) || ".." !in Split(target)
    ensures Passes(stateDir, rel, target) ==> LeadsInside(stateDir, rel, target)
  {
    LinkTest(stateDir, rel, target);
    if Begins(stateDir, target) {
      BeginsIs(stateDir, target);
      SplitBegins(stateDir, Rest(stateDir, target));
      ResolveDown(stateDir, Split(Rest(stateDir, target)));
    }
  }

  /** A relative target, or an absolute one in normal form. */
  predicate Straight(target: string) {
    !IsAbsolute(target) || target == "/" || AllOrdinary(Split(target)[1..])
  }

  /** For those the test keeps the promise. */
  lemma StraightLink(stateDir: Path, rel: Path, target: string)
    requires ProperDir(stateDir) && rel != [] && AllOrdinary(rel) && Straight(target)
    ensures Passes(stateDir, rel, target) <==> LeadsInside(stateDir, rel, target)
  {
    if !IsAbsolute(target) {
      RelativeLink(stateDir, rel, target);
    } else {
      var p := if target == "/" then [] else Split(target)[1..];
      NormalForm(target, p);
      InsideIsBelow(stateDir, p);
    }
  }

  lemma NormalForm(target: string, p: Path)
    requires IsAbsolute(target) && AllOrdinary(p) && p == if target == "/" then [] else Split(target)[1..]
    ensures target == Absolute(p) && Resolve([], Split(target)) == p
  {
    assert target[0] == target[..1][0] == '/';
    assert Split(target) == [""] + Split(target[1..]);
    if target == "/" {
      assert target[1..] == "" && Split("") == [""];
      assert ["", ""][1..] == [""] && [""][1..] == [];
    } else {
      assert p == Split(target[1..]);
      JoinSplit(target[1..]);
      assert target == "/" + target[1..];
      assert ([""] + p)[1..] == p == p + [] && [] + p == p;
      ResolveAlong([], p, []);
    }
  }

  // ---------------------------------------------------------------- it happens

  /** Whatever the state directory, a link to it with "/.." behind passes and leads outside. */
  lemma PassesOutside(stateDir: Path, rel: Path)
    requires ProperDir(stateDir) && rel != [] && AllOrdinary(rel)
    ensures var target := Absolute(stateDir) + "/..";
      Passes(stateDir, rel, target) && !LeadsInside(stateDir, rel, target)
  {
    var target := Absolute(stateDir) + "/..";
    assert target[..|Absolute(stateDir)| + 1] == Absolute(stateDir) + "/";
    assert Rest(stateDir, target) == "..";
    SplitName("..");
    assert Resolve(stateDir, [".."]) == Parent(stateDir);
    LinkTest(stateDir, rel, target);
  }

  /** And one to it with a second slash in front leads inside and is refused. */
  lemma RefusedInside(stateDir: Path, rel: Path)
    requires ProperDir(stateDir) && rel != [] && AllOrdinary(rel)
    ensures var target := "/" + Absolute(stateDir);
      !Passes(stateDir, rel, target) && LeadsInside(stateDir, rel, target)
  {
    var s := Absolute(stateDir);
    var target := "/" + s;
    JoinStart(stateDir);
    assert target[1] == '/' && s[1] == Join(stateDir)[0];
    assert target[..1] == "/" && target[1..] == s;
    SplitAbsolute(stateDir);
    assert ([""] + ([""] + stateDir))[1..] == [""] + stateDir;
    ResolveFromRoot(stateDir, target);
    assert !Begins(stateDir, target) by {
      assert (s + "/")[1] == s[1];
    }
  }

  /** A link to the root leads outside and is refused. */
  lemma RootRefused(stateDir: Path, rel: Path)
    requires ProperDir(stateDir) && rel != [] && AllOrdinary(rel)
    ensures !Passes(stateDir, rel, "/") && !LeadsInside(stateDir, rel, "/")
  {
    assert AllOrdinary([]);
    StraightLink(stateDir, rel, "/");
    NormalForm("/", []);
  }
}
