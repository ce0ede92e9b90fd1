/** The archive's member list: the collect walk of the nightly backup. */
module Backup {
  import opened FileTree
  import Listing
  import Bytes

  /** What is never archived: paths with all beneath them, bare names at any depth, and saved
      chats under some paths. */
  datatype Policy = Policy(exclude: set<Path>, excludeNames: set<Name>, excludeTranscripts: set<Path>)

  /** One run's view: the state directory, the paths git tracks, and the policy. */
  datatype Scene = Scene(state: Tree, tracked: set<Path>, policy: Policy)

  predicate Excluded(policy: Policy, rel: Path)
    requires rel != []
  {
    || (exists x | x in policy.exclude :: x <= rel)
    || rel[|rel| - 1] in policy.excludeNames
    || (ChatName(rel[|rel| - 1]) && exists x | x in policy.excludeTranscripts :: x < rel)
  }

  /** q lies at or under an excluded path that is itself below dir. */
  ghost predicate Barred(sc: Scene, dir: Path, q: Path) {
    exists r :: r in sc.state && dir < r <= q && Excluded(sc.policy, r)
  }

  predicate Plain(e: Entry) {
    e.File? || e.Link?
  }

  /** Below dir: the members the walk archives, the ones git holds, and the ones left out. The
      second argument restricts them to the children of dir named there. */
  ghost function Archived(sc: Scene, dir: Path, names: set<Name>): set<Path> {
    set q | q in sc.state && dir < q && q[|dir|] in names && !Barred(sc, dir, q)
            && (sc.state[q].Dir? || (Plain(sc.state[q]) && q !in sc.tracked))
  }

  ghost function HeldByGit(sc: Scene, dir: Path, names: set<Name>): set<Path> {
    set q | q in sc.state && dir < q && q[|dir|] in names && !Barred(sc, dir, q)
            && Plain(sc.state[q]) && q in sc.tracked
  }

  ghost function LeftOut(sc: Scene, dir: Path, names: set<Name>): set<Path> {
    set q | q in sc.state && dir < q && q[|dir|] in names
            && Excluded(sc.policy, q) && !Barred(sc, dir, Parent(q))
  }

  lemma BarredFromChild(sc: Scene, dir: Path, n: Name, q: Path)
    requires dir + [n] in sc.state && dir + [n] <= q
    ensures Barred(sc, dir, q) <==> Excluded(sc.policy, dir + [n]) || Barred(sc, dir + [n], q)
  {
    var c := dir + [n];
    if Barred(sc, dir, q) {
      var r :| r in sc.state && dir < r <= q && Excluded(sc.policy, r);
      assert r[|dir|] == q[|dir|] == n;
      assert c <= r;
      if r != c {
        ProperPrefix(c, r);
      }
    }
    if Barred(sc, c, q) {
      var r :| r in sc.state && c < r <= q && Excluded(sc.policy, r);
      assert dir < r;
    }
  }

  /** Where a path under the child n of dir stands. */
  lemma UnderChild(sc: Scene, dir: Path, n: Name, q: Path)
    requires WellFormed(sc.state) && dir + [n] in sc.state && q in sc.state && dir < q && q[|dir|] == n
    ensures var c := dir + [n];
      && (Barred(sc, dir, q) <==> Excluded(sc.policy, c) || Barred(sc, c, q))
      && (q != c ==> c < q && q[|c|] in Names(sc.state, c))
      && (q != c ==> (Barred(sc, dir, Parent(q)) <==> Excluded(sc.policy, c) || Barred(sc, c, Parent(q))))
      && (q == c ==> !Barred(sc, dir, Parent(q)) && !Barred(sc, c, q))
  {
    var c := dir + [n];
    assert c <= q;
    BarredFromChild(sc, dir, n, q);
    if q != c {
      assert c < q;
      BelowChild(sc, dir, n, q);
    } else {
      assert Parent(q) == dir;
      NotBarredAtOrAbove(sc, dir, dir);
      NotBarredAtOrAbove(sc, c, c);
    }
  }

  lemma BelowChild(sc: Scene, dir: Path, n: Name, q: Path)
    requires WellFormed(sc.state) && dir + [n] in sc.state && q in sc.state && dir + [n] < q
    ensures var c := dir + [n];
      && q[|c|] in Names(sc.state, c)
      && (Barred(sc, dir, Parent(q)) <==> Excluded(sc.policy, c) || Barred(sc, c, Parent(q)))
  {
    ProperPrefix(dir + [n], q);
    ChildOnTheWay(sc.state, dir + [n], q);
    BarredFromChild(sc, dir, n, Parent(q));
  }

  lemma NotBarredAtOrAbove(sc: Scene, dir: Path, q: Path)
    requires q <= dir
    ensures !Barred(sc, dir, q)
  {
  }

  /** What a path c contributes to each of the three sets, itself included. */
  ghost function ArchivedAt(sc: Scene, c: Path): set<Path>
    requires c in sc.state && c != []
  {
    if Excluded(sc.policy, c) then {}
    else Archived(sc, c, Names(sc.state, c))
         + (if sc.state[c].Dir? || (Plain(sc.state[c]) && c !in sc.tracked) then {c} else {})
  }

  ghost function HeldAt(sc: Scene, c: Path): set<Path>
    requires c in sc.state && c != []
  {
    if Excluded(sc.policy, c) then {}
    else HeldByGit(sc, c, Names(sc.state, c)) + (if Plain(sc.state[c]) && c in sc.tracked then {c} else {})
  }

  ghost function LeftOutAt(sc: Scene, c: Path): set<Path>
    requires c in sc.state && c != []
  {
    if Excluded(sc.policy, c) then {c} else LeftOut(sc, c, Names(sc.state, c))
  }

  /** A set of paths that all lie under children of dir named in `names`, or at or below c. */
  ghost predicate Under(paths: set<Path>, dir: Path, names: set<Name>) {
    forall q :: q in paths ==> dir < q && q[|dir|] in names
  }

  lemma ContributionsApart(sc: Scene, dir: Path, n: Name)
    requires dir + [n] in sc.state
    ensures Under(ArchivedAt(sc, dir + [n]), dir, {n})
    ensures Under(HeldAt(sc, dir + [n]), dir, {n})
    ensures Under(LeftOutAt(sc, dir + [n]), dir, {n})
  {
    var c := dir + [n];
    assert forall q :: c <= q ==> dir < q && q[|dir|] == n;
  }

  /** A path under the child n of dir is in the child's contributions as it is in dir's. */
  lemma AtChild(sc: Scene, dir: Path, n: Name, q: Path)
    requires WellFormed(sc.state) && dir + [n] in sc.state && q in sc.state && dir < q && q[|dir|] == n
    ensures q in ArchivedAt(sc, dir + [n]) <==>
      !Barred(sc, dir, q) && (sc.state[q].Dir? || (Plain(sc.state[q]) && q !in sc.tracked))
    ensures q in HeldAt(sc, dir + [n]) <==> !Barred(sc, dir, q) && Plain(sc.state[q]) && q in sc.tracked
    ensures q in LeftOutAt(sc, dir + [n]) <==> Excluded(sc.policy, q) && !Barred(sc, dir, Parent(q))
  {
    UnderChild(sc, dir, n, q);
  }

  /** One more name of a listing adds what that child contributes. */
  lemma OneArchived(sc: Scene, dir: Path, names: set<Name>, n: Name)
    requires WellFormed(sc.state) && dir + [n] in sc.state
    ensures Archived(sc, dir, names + {n}) == Archived(sc, dir, names) + ArchivedAt(sc, dir + [n])
  {
    ContributionsApart(sc, dir, n);
    var more, less, child := Archived(sc, dir, names + {n}), Archived(sc, dir, names), ArchivedAt(sc, dir + [n]);
    forall q
      ensures q in more <==> q in less || q in child
    {
      if q in sc.state && dir < q && q[|dir|] == n {
        AtChild(sc, dir, n, q);
      }
    }
  }

  lemma OneHeld(sc: Scene, dir: Path, names: set<Name>, n: Name)
    requires WellFormed(sc.state) && dir + [n] in sc.state
    ensures HeldByGit(sc, dir, names + {n}) == HeldByGit(sc, dir, names) + HeldAt(sc, dir + [n])
  {
    ContributionsApart(sc, dir, n);
    var more, less, child := HeldByGit(sc, dir, names + {n}), HeldByGit(sc, dir, names), HeldAt(sc, dir + [n]);
    forall q
      ensures q in more <==> q in less || q in child
    {
      if q in sc.state && dir < q && q[|dir|] == n {
        AtChild(sc, dir, n, q);
      }
    }
  }

  lemma OneLeftOut(sc: Scene, dir: Path, names: set<Name>, n: Name)
    requires WellFormed(sc.state) && dir + [n] in sc.state
    ensures LeftOut(sc, dir, names + {n}) == LeftOut(sc, dir, names) + LeftOutAt(sc, dir + [n])
  {
    ContributionsApart(sc, dir, n);
    var more, less, child := LeftOut(sc, dir, names + {n}), LeftOut(sc, dir, names), LeftOutAt(sc, dir + [n]);
    forall q
      ensures q in more <==> q in less || q in child
    {
      if q in sc.state && dir < q && q[|dir|] == n {
        AtChild(sc, dir, n, q);
      }
    }
  }

  // ---------------------------------------------------------------- the order of an archive

  /** Each path's parent is dir or comes earlier, so a tar of the list meets directories first. */
  ghost predicate ParentsFirst(dir: Path, s: seq<Path>) {
    forall i :: 0 <= i < |s| ==> s[i] != [] && (Parent(s[i]) == dir || Parent(s[i]) in s[..i])
  }

  lemma ParentsFirstConcat(dir: Path, a: seq<Path>, b: seq<Path>)
    requires ParentsFirst(dir, a) && ParentsFirst(dir, b)
    ensures ParentsFirst(dir, a + b)
  {
    forall i | 0 <= i < |a + b|
      ensures (a + b)[i] != [] && (Parent((a + b)[i]) == dir || Parent((a + b)[i]) in (a + b)[..i])
    {
      if i < |a| {
        assert (a + b)[..i] == a[..i];
      } else {
        assert (a + b)[..i] == a + b[..i - |a|];
      }
    }
  }

  lemma ParentsFirstUnder(dir: Path, n: Name, sub: seq<Path>)
    requires ParentsFirst(dir + [n], sub)
    ensures ParentsFirst(dir, [dir + [n]] + sub)
  {
    var s := [dir + [n]] + sub;
    forall i | 0 <= i < |s|
      ensures s[i] != [] && (Parent(s[i]) == dir || Parent(s[i]) in s[..i])
    {
      if i == 0 {
        assert Parent(dir + [n]) == dir;
      } else {
        assert s[..i] == [dir + [n]] + sub[..i - 1];
      }
    }
  }

  // ---------------------------------------------------------------- the walk

  class Collector {
    const sc: Scene
    var entries: seq<Path>
    var leftOut: seq<Path>
    var trackedCount: nat

    constructor (sc: Scene)
      ensures this.sc == sc && entries == [] && leftOut == [] && trackedCount == 0
    {
      this.sc := sc;
      entries, leftOut, trackedCount := [], [], 0;
    }

    method Walk(dir: Path) returns (ghost added: seq<Path>, ghost skipped: seq<Path>)
      requires WellFormed(sc.state) && IsDir(sc.state, dir)
      modifies this
      ensures entries == old(entries) + added && leftOut == old(leftOut) + skipped
      ensures Listing.Lists(added, Archived(sc, dir, Names(sc.state, dir))) && ParentsFirst(dir, added)
      ensures Listing.Lists(skipped, LeftOut(sc, dir, Names(sc.state, dir)))
      ensures trackedCount == old(trackedCount) + |HeldByGit(sc, dir, Names(sc.state, dir))|
      decreases Below(sc.state, dir), 1
    {
      added, skipped := [], [];
      var names := Listing.Sorted(Names(sc.state, dir));
      ghost var done: set<Name> := {};
      Listing.FirstsAll(names, Names(sc.state, dir));
      for i := 0 to |names|
        invariant done == Listing.Firsts(names, i)
        invariant entries == old(entries) + added && leftOut == old(leftOut) + skipped
        invariant Listing.Lists(added, Archived(sc, dir, done)) && ParentsFirst(dir, added)
        invariant Listing.Lists(skipped, LeftOut(sc, dir, done))
        invariant trackedCount == old(trackedCount) + |HeldByGit(sc, dir, done)|
      {
        var n := names[i];
        assert n in Names(sc.state, dir);
        assert Below(sc.state, dir + [n]) < Below(sc.state, dir) by {
          assert dir in Below(sc.state, dir) && dir !in Below(sc.state, dir + [n]);
        }
        Listing.FirstsMore(names, i);
        ghost var more, less := Visit(dir, n);
        Extend(sc, dir, done, n, added, more, skipped, less);
        Bytes.Associative(old(entries), added, more);
        Bytes.Associative(old(leftOut), skipped, less);
        added, skipped, done := added + more, skipped + less, done + {n};
      }
    }

    /** The loop body: one name of a listing. */
    method Visit(dir: Path, n: Name) returns (ghost added: seq<Path>, ghost skipped: seq<Path>)
      requires WellFormed(sc.state) && dir + [n] in sc.state
      modifies this
      ensures entries == old(entries) + added && leftOut == old(leftOut) + skipped
      ensures Listing.Lists(added, ArchivedAt(sc, dir + [n])) && ParentsFirst(dir, added)
      ensures Listing.Lists(skipped, LeftOutAt(sc, dir + [n]))
      ensures trackedCount == old(trackedCount) + |HeldAt(sc, dir + [n])|
      decreases Below(sc.state, dir + [n]), 2
    {
      var rel := dir + [n];
      added, skipped := [], [];
      if Excluded(sc.policy, rel) {
        leftOut, skipped := leftOut + [rel], [rel];
      } else if sc.state[rel].Dir? {
        entries := entries + [rel];
        added, skipped := Walk(rel);
        Bytes.Associative(old(entries), [rel], added);
        FolderVisited(sc, dir, n, added);
        added := [rel] + added;
      } else {
        AtCases(sc, rel);
        if Plain(sc.state[rel]) {
          if rel in sc.tracked {
            trackedCount := trackedCount + 1;
          } else {
            entries, added := entries + [rel], [rel];
          }
        }
      }
    }
  }

  /** A folder that is not excluded contributes itself and what its walk does. */
  lemma FolderVisited(sc: Scene, dir: Path, n: Name, sub: seq<Path>)
    requires WellFormed(sc.state) && IsDir(sc.state, dir + [n]) && !Excluded(sc.policy, dir + [n])
    requires var c := dir + [n];
      Listing.Lists(sub, Archived(sc, c, Names(sc.state, c))) && ParentsFirst(c, sub)
    ensures var c := dir + [n];
      && Listing.Lists([c] + sub, ArchivedAt(sc, c)) && ParentsFirst(dir, [c] + sub)
      && LeftOutAt(sc, c) == LeftOut(sc, c, Names(sc.state, c))
      && HeldAt(sc, c) == HeldByGit(sc, c, Names(sc.state, c))
  {
    var c := dir + [n];
    AtCases(sc, c);
    ParentsFirstUnder(dir, n, sub);
    Listing.ListsConcat([c], {c}, sub, Archived(sc, c, Names(sc.state, c)));
  }

  /** The three contributions of a path, case by case. */
  lemma AtCases(sc: Scene, c: Path)
    requires WellFormed(sc.state) && c in sc.state && c != [] && !Excluded(sc.policy, c)
    ensures LeftOutAt(sc, c) == LeftOut(sc, c, Names(sc.state, c))
    ensures sc.state[c].Dir? ==> HeldAt(sc, c) == HeldByGit(sc, c, Names(sc.state, c))
    ensures sc.state[c].Dir? ==> ArchivedAt(sc, c) == {c} + Archived(sc, c, Names(sc.state, c))
    ensures !sc.state[c].Dir? ==> LeftOutAt(sc, c) == {}
    ensures !sc.state[c].Dir? ==> HeldAt(sc, c) == if Plain(sc.state[c]) && c in sc.tracked then {c} else {}
    ensures !sc.state[c].Dir? ==> ArchivedAt(sc, c) == if Plain(sc.state[c]) && c !in sc.tracked then {c} else {}
  {
    if !sc.state[c].Dir? {
      NothingUnder(sc, c);
    }
  }

  lemma NothingUnder(sc: Scene, c: Path)
    requires WellFormed(sc.state) && c in sc.state && !sc.state[c].Dir?
    ensures Archived(sc, c, Names(sc.state, c)) == {}
    ensures HeldByGit(sc, c, Names(sc.state, c)) == {}
    ensures LeftOut(sc, c, Names(sc.state, c)) == {}
  {
    NothingBelow(sc.state, c);
  }

  /** One turn of the loop over a directory's names. */
  lemma Extend(sc: Scene, dir: Path, done: set<Name>, n: Name,
               added: seq<Path>, more: seq<Path>, skipped: seq<Path>, less: seq<Path>)
    requires WellFormed(sc.state) && dir + [n] in sc.state && n !in done
    requires Listing.Lists(added, Archived(sc, dir, done)) && Listing.Lists(more, ArchivedAt(sc, dir + [n]))
    requires Listing.Lists(skipped, LeftOut(sc, dir, done)) && Listing.Lists(less, LeftOutAt(sc, dir + [n]))
    requires ParentsFirst(dir, added) && ParentsFirst(dir, more)
    ensures Listing.Lists(added + more, Archived(sc, dir, done + {n})) && ParentsFirst(dir, added + more)
    ensures Listing.Lists(skipped + less, LeftOut(sc, dir, done + {n}))
    ensures |HeldByGit(sc, dir, done + {n})| == |HeldByGit(sc, dir, done)| + |HeldAt(sc, dir + [n])|
  {
    ContributionsApart(sc, dir, n);
    OneArchived(sc, dir, done, n);
    OneHeld(sc, dir, done, n);
    OneLeftOut(sc, dir, done, n);
    Listing.ListsConcat(added, Archived(sc, dir, done), more, ArchivedAt(sc, dir + [n]));
    Listing.ListsConcat(skipped, LeftOut(sc, dir, done), less, LeftOutAt(sc, dir + [n]));
    ParentsFirstConcat(dir, added, more);
    assert HeldByGit(sc, dir, done) !! HeldAt(sc, dir + [n]);
  }

  // ---------------------------------------------------------------- the policy, name by name

  /** The walk stops at the k-th name of q: an excluded path ends there or above, or the name is an
      excluded one, or it is a saved chat's below a path whose chats are left out. */
  ghost predicate StopsAt(policy: Policy, q: Path, k: nat)
    requires 0 < k <= |q|
  {
    || (exists j :: 0 <= j <= k && q[..j] in policy.exclude)
    || q[k - 1] in policy.excludeNames
    || (ChatName(q[k - 1]) && exists j :: 0 <= j < k && q[..j] in policy.excludeTranscripts)
  }

  /** The walk stops at none of the names of q behind the first `from`. */
  ghost predicate Spared(policy: Policy, from: nat, q: Path) {
    forall k :: from < k <= |q| ==> !StopsAt(policy, q, k)
  }

  lemma ExcludedIs(policy: Policy, q: Path, k: nat)
    requires 0 < k <= |q|
    ensures Excluded(policy, q[..k]) <==> StopsAt(policy, q, k)
  {
    var rel := q[..k];
    assert forall j :: 0 <= j <= k ==> rel[..j] == q[..j];
    if x :| x in policy.exclude && x <= rel {
      assert x == rel[..|x|];
    }
    if x :| x in policy.excludeTranscripts && x < rel {
      assert x == rel[..|x|];
    }
  }

  lemma PrefixesThere(t: Tree, q: Path, k: nat)
    requires WellFormed(t) && q in t && k <= |q|
    ensures q[..k] in t
  {
    if k < |q| {
      AncestorIsDir(t, q[..k], q);
    } else {
      assert q[..k] == q;
    }
  }

  lemma BarredIs(sc: Scene, dir: Path, q: Path)
    requires WellFormed(sc.state) && q in sc.state && dir <= q
    ensures Barred(sc, dir, q) <==> !Spared(sc.policy, |dir|, q)
  {
    if Barred(sc, dir, q) {
      var r :| r in sc.state && dir < r <= q && Excluded(sc.policy, r);
      assert r == q[..|r|];
      ExcludedIs(sc.policy, q, |r|);
    }
    if !Spared(sc.policy, |dir|, q) {
      var k :| |dir| < k <= |q| && StopsAt(sc.policy, q, k);
      PrefixesThere(sc.state, q, k);
      ExcludedIs(sc.policy, q, k);
      assert dir < q[..k] <= q;
    }
  }

  /** Below a folder the walk archives exactly the folders, and the files and links git has not,
      at whose names it does not stop; those of them that git has it counts. */
  lemma ArchivedIs(sc: Scene, dir: Path, q: Path)
    requires WellFormed(sc.state) && IsDir(sc.state, dir)
    ensures q in Archived(sc, dir, Names(sc.state, dir)) <==>
      && dir < q && q in sc.state && Spared(sc.policy, |dir|, q)
      && (sc.state[q].Dir? || ((sc.state[q].File? || sc.state[q].Link?) && q !in sc.tracked))
    ensures q in HeldByGit(sc, dir, Names(sc.state, dir)) <==>
      && dir < q && q in sc.state && Spared(sc.policy, |dir|, q)
      && (sc.state[q].File? || sc.state[q].Link?) && q in sc.tracked
  {
    if dir < q && q in sc.state {
      BarredIs(sc, dir, q);
      ChildOnTheWay(sc.state, dir, q);
    }
  }

  /** It leaves out exactly the paths at whose last name it stops first. */
  lemma LeftOutIs(sc: Scene, dir: Path, q: Path)
    requires WellFormed(sc.state) && IsDir(sc.state, dir)
    ensures q in LeftOut(sc, dir, Names(sc.state, dir)) <==>
      dir < q && q in sc.state && StopsAt(sc.policy, q, |q|)
      && forall k :: |dir| < k < |q| ==> !StopsAt(sc.policy, q, k)
  {
    if dir < q && q in sc.state {
      ProperPrefix(dir, q);
      PrefixesThere(sc.state, q, |q| - 1);
      BarredIs(sc, dir, Parent(q));
      ExcludedIs(sc.policy, q, |q|);
      assert q[..|q|] == q;
      ChildOnTheWay(sc.state, dir, q);
      forall k | |dir| < k < |q|
        ensures StopsAt(sc.policy, Parent(q), k) <==> StopsAt(sc.policy, q, k)
      {
        assert Parent(q)[..k] == q[..k];
        ExcludedIs(sc.policy, q, k);
        ExcludedIs(sc.policy, Parent(q), k);
      }
    }
  }

  // ---------------------------------------------------------------- every target

  /** No target lies at or under another. */
  ghost predicate NotNested(targets: seq<Path>) {
    forall i, j :: 0 <= i < |targets| && 0 <= j < |targets| && i != j ==> !(targets[i] <= targets[j])
  }

  /** What one target puts in the archive, itself included whatever git holds. */
  ghost function TargetMembers(sc: Scene, t: Path): set<Path> {
    {t} + if IsDir(sc.state, t) then Archived(sc, t, Names(sc.state, t)) else {}
  }

  ghost function Members(sc: Scene, targets: seq<Path>): set<Path> {
    if targets == [] then {} else Members(sc, targets[..|targets| - 1]) + TargetMembers(sc, targets[|targets| - 1])
  }

  /** What the walks of all targets leave out, and how many files they leave to git. */
  ghost function AllLeftOut(sc: Scene, targets: seq<Path>): set<Path> {
    if targets == [] then {} else
    var t := targets[|targets| - 1];
    AllLeftOut(sc, targets[..|targets| - 1]) + if IsDir(sc.state, t) then LeftOut(sc, t, Names(sc.state, t)) else {}
  }

  ghost function AllHeld(sc: Scene, targets: seq<Path>): nat {
    if targets == [] then 0 else
    var t := targets[|targets| - 1];
    AllHeld(sc, targets[..|targets| - 1]) + if IsDir(sc.state, t) then |HeldByGit(sc, t, Names(sc.state, t))| else 0
  }

  lemma {:induction false} MembersUnder(sc: Scene, targets: seq<Path>, q: Path)
    ensures q in Members(sc, targets) <==> exists t :: t in targets && q in TargetMembers(sc, t)
    ensures forall t :: q in TargetMembers(sc, t) ==> t <= q
  {
    if targets != [] {
      var most, last := targets[..|targets| - 1], targets[|targets| - 1];
      MembersUnder(sc, most, q);
      assert targets == most + [last];
      assert forall t :: t in targets <==> t in most || t == last;
    }
  }

  /** The archive's members: the targets, and what lies below one of them and is spared. */
  lemma MembersAre(sc: Scene, targets: seq<Path>, q: Path)
    requires WellFormed(sc.state) && forall t :: t in targets ==> t in sc.state
    ensures q in Members(sc, targets) <==> q in targets || exists t :: t in targets && ArchivedFrom(sc, t, q)
  {
    MembersUnder(sc, targets, q);
    forall t | t in targets
      ensures q in TargetMembers(sc, t) <==> q == t || ArchivedFrom(sc, t, q)
    {
      TargetMembersAre(sc, t, q);
    }
  }

  ghost predicate ArchivedFrom(sc: Scene, t: Path, q: Path) {
    && t < q && q in sc.state && Spared(sc.policy, |t|, q)
    && (sc.state[q].Dir? || ((sc.state[q].File? || sc.state[q].Link?) && q !in sc.tracked))
  }

  lemma TargetMembersAre(sc: Scene, t: Path, q: Path)
    requires WellFormed(sc.state) && t in sc.state
    ensures q in TargetMembers(sc, t) <==> q == t || ArchivedFrom(sc, t, q)
  {
    if IsDir(sc.state, t) {
      ArchivedIs(sc, t, q);
    } else if ArchivedFrom(sc, t, q) {
      AncestorIsDir(sc.state, t, q);
    }
  }

  /** The same for a path below one target only, spelled out: which paths are archived. */
  lemma OneTargetMember(sc: Scene, targets: seq<Path>, t: Path, q: Path)
    requires WellFormed(sc.state) && (forall u :: u in targets ==> u in sc.state)
    requires t in targets && t < q && q in sc.state && forall u :: u in targets && u <= q ==> u == t
    ensures q in Members(sc, targets) <==>
      && (sc.state[q].Dir? || ((sc.state[q].File? || sc.state[q].Link?) && q !in sc.tracked))
      && (forall k :: 0 <= k <= |q| ==> q[..k] !in sc.policy.exclude)
      && (forall i :: |t| <= i < |q| ==> q[i] !in sc.policy.excludeNames)
      && (forall j, i :: |t| <= i < |q| && 0 <= j <= i && q[..j] in sc.policy.excludeTranscripts ==>
            |q[i]| < 6 || q[i][|q[i]| - 6..] != ".jsonl")
  {
    MembersAre(sc, targets, q);
    SparedIs(sc.policy, |t|, q);
    forall u | u in targets && ArchivedFrom(sc, u, q)
      ensures u == t
    {
    }
  }

  lemma SparedIs(policy: Policy, from: nat, q: Path)
    requires from < |q|
    ensures Spared(policy, from, q) <==>
      && (forall k :: 0 <= k <= |q| ==> q[..k] !in policy.exclude)
      && (forall i :: from <= i < |q| ==> q[i] !in policy.excludeNames)
      && (forall j, i :: from <= i < |q| && 0 <= j <= i && q[..j] in policy.excludeTranscripts ==>
            |q[i]| < 6 || q[i][|q[i]| - 6..] != ".jsonl")
  {
    if k :| 0 <= k <= |q| && q[..k] in policy.exclude {
      assert StopsAt(policy, q, |q|);
    }
    if i :| from <= i < |q| && q[i] in policy.excludeNames {
      assert StopsAt(policy, q, i + 1);
    }
    if j, i :| from <= i < |q| && 0 <= j <= i && q[..j] in policy.excludeTranscripts && ChatName(q[i]) {
      assert StopsAt(policy, q, i + 1);
    }
  }

  /** What is left out of an archive is left out below some target. */
  lemma {:induction false} LeftOutUnder(sc: Scene, targets: seq<Path>, q: Path)
    ensures q in AllLeftOut(sc, targets) <==>
      exists t :: t in targets && IsDir(sc.state, t) && q in LeftOut(sc, t, Names(sc.state, t))
  {
    if targets != [] {
      var most, last := targets[..|targets| - 1], targets[|targets| - 1];
      LeftOutUnder(sc, most, q);
      assert targets == most + [last];
      assert forall t :: t in targets <==> t in most || t == last;
    }
  }

  /** What git holds below some target and the walk counts. */
  ghost function Held(sc: Scene, targets: seq<Path>): set<Path> {
    set q | q in sc.state && (sc.state[q].File? || sc.state[q].Link?) && q in sc.tracked
            && exists t :: t in targets && t < q && Spared(sc.policy, |t|, q)
  }

  /** Where no target lies under another, the count is of exactly these. */
  lemma {:induction false} AllHeldIs(sc: Scene, targets: seq<Path>)
    requires WellFormed(sc.state) && (forall t :: t in targets ==> t in sc.state) && NotNested(targets)
    ensures AllHeld(sc, targets) == |Held(sc, targets)|
  {
    if targets == [] {
      assert Held(sc, targets) == {};
    } else {
      var n := |targets| - 1;
      AllHeldIs(sc, targets[..n]);
      HeldMore(sc, targets);
    }
  }

  lemma HeldMore(sc: Scene, targets: seq<Path>)
    requires WellFormed(sc.state) && (forall t :: t in targets ==> t in sc.state) && NotNested(targets) && targets != []
    ensures var n := |targets| - 1; var t := targets[n];
      |Held(sc, targets)| == |Held(sc, targets[..n])|
        + if IsDir(sc.state, t) then |HeldByGit(sc, t, Names(sc.state, t))| else 0
  {
    var n := |targets| - 1;
    var t, most := targets[n], targets[..n];
    var here := if IsDir(sc.state, t) then HeldByGit(sc, t, Names(sc.state, t)) else {};
    forall q
      ensures q in here <==> q in sc.state && (sc.state[q].File? || sc.state[q].Link?) && q in sc.tracked
                             && t < q && Spared(sc.policy, |t|, q)
    {
      HeldHere(sc, t, q);
    }
    HeldApart(sc, targets, here);
    HeldJoined(sc, targets, here);
  }

  lemma HeldJoined(sc: Scene, targets: seq<Path>, here: set<Path>)
    requires targets != []
    requires var t := targets[|targets| - 1];
      forall q :: q in here <==> q in sc.state && (sc.state[q].File? || sc.state[q].Link?) && q in sc.tracked
                                 && t < q && Spared(sc.policy, |t|, q)
    ensures Held(sc, targets) == Held(sc, targets[..|targets| - 1]) + here
  {
    assert targets == targets[..|targets| - 1] + [targets[|targets| - 1]];
  }

  lemma HeldApart(sc: Scene, targets: seq<Path>, here: set<Path>)
    requires NotNested(targets) && targets != [] && forall q :: q in here ==> targets[|targets| - 1] < q
    ensures Held(sc, targets[..|targets| - 1]) !! here
  {
    var n := |targets| - 1;
    forall q | q in here && q in Held(sc, targets[..n])
      ensures false
    {
      var u :| u in targets[..n] && u < q && Spared(sc.policy, |u|, q);
      var j :| 0 <= j < n && targets[j] == u;
      Comparable(u, targets[n], q);
    }
  }

  lemma HeldHere(sc: Scene, t: Path, q: Path)
    requires WellFormed(sc.state) && t in sc.state
    ensures (IsDir(sc.state, t) && q in HeldByGit(sc, t, Names(sc.state, t)))
       <==> q in sc.state && (sc.state[q].File? || sc.state[q].Link?) && q in sc.tracked
            && t < q && Spared(sc.policy, |t|, q)
  {
    if IsDir(sc.state, t) {
      ArchivedIs(sc, t, q);
    } else {
      NothingBelow(sc.state, t);
    }
  }

  lemma TargetsApart(sc: Scene, targets: seq<Path>, i: nat)
    requires NotNested(targets) && i < |targets|
    ensures Members(sc, targets[..i]) !! TargetMembers(sc, targets[i])
  {
    forall q | q in Members(sc, targets[..i]) && q in TargetMembers(sc, targets[i])
      ensures false
    {
      MembersUnder(sc, targets[..i], q);
      var t :| t in targets[..i] && q in TargetMembers(sc, t);
      var j :| 0 <= j < i && targets[j] == t;
      Comparable(targets[i], t, q);
    }
  }

  /** Two prefixes of one path are comparable. */
  lemma Comparable(a: Path, b: Path, q: Path)
    requires a <= q && b <= q
    ensures a <= b || b <= a
  {
    assert a == q[..|a|] && b == q[..|b|];
  }

  /** The first k targets are done: the members, without repeats when no target lies under another,
      what is left out and how many files git holds. */
  ghost predicate CollectedTo(sc: Scene, present: seq<Path>, k: nat, entries: seq<Path>, leftOut: seq<Path>, held: nat)
    requires k <= |present|
  {
    && (forall q :: q in entries <==> q in Members(sc, present[..k]))
    && (NotNested(present) ==> Listing.Lists(entries, Members(sc, present[..k])))
    && (forall q :: q in leftOut <==> q in AllLeftOut(sc, present[..k]))
    && held == AllHeld(sc, present[..k])
  }

  lemma OneMoreTarget(sc: Scene, present: seq<Path>, i: nat, before: seq<Path>, more: seq<Path>)
    requires i < |present| && Listing.Lists(more, TargetMembers(sc, present[i]))
    requires forall q :: q in before <==> q in Members(sc, present[..i])
    requires NotNested(present) ==> Listing.Lists(before, Members(sc, present[..i]))
    ensures forall q :: q in before + more <==> q in Members(sc, present[..i + 1])
    ensures NotNested(present) ==> Listing.Lists(before + more, Members(sc, present[..i + 1]))
  {
    assert present[..i + 1][..i] == present[..i];
    if NotNested(present) {
      TargetsApart(sc, present, i);
      Listing.ListsConcat(before, Members(sc, present[..i]), more, TargetMembers(sc, present[i]));
    }
  }

  lemma OneMoreCounted(sc: Scene, present: seq<Path>, i: nat)
    requires i < |present|
    ensures var t := present[i]; var at := Names(sc.state, t);
      && AllLeftOut(sc, present[..i + 1])
         == AllLeftOut(sc, present[..i]) + (if IsDir(sc.state, t) then LeftOut(sc, t, at) else {})
      && AllHeld(sc, present[..i + 1])
         == AllHeld(sc, present[..i]) + (if IsDir(sc.state, t) then |HeldByGit(sc, t, at)| else 0)
  {
    assert present[..i + 1][..i] == present[..i] && present[..i + 1][i] == present[i];
  }

  lemma TargetListed(sc: Scene, t: Path, added: seq<Path>)
    requires if IsDir(sc.state, t) then Listing.Lists(added, Archived(sc, t, Names(sc.state, t))) else added == []
    ensures Listing.Lists([t] + added, TargetMembers(sc, t))
  {
    Listing.ListsConcat([t], {t}, added, TargetMembers(sc, t) - {t});
    assert {t} + (TargetMembers(sc, t) - {t}) == TargetMembers(sc, t);
  }

  /** What a target's walk adds, leaves out and counts. */
  ghost predicate WalkOf(sc: Scene, t: Path, added: seq<Path>, skipped: seq<Path>, count: nat) {
    var at := Names(sc.state, t);
    if IsDir(sc.state, t)
    then Listing.Lists(added, Archived(sc, t, at)) && Listing.Lists(skipped, LeftOut(sc, t, at))
         && count == |HeldByGit(sc, t, at)|
    else added == [] && skipped == [] && count == 0
  }

  lemma CollectedMore(sc: Scene, present: seq<Path>, i: nat, entries: seq<Path>, leftOut: seq<Path>, held: nat,
                      added: seq<Path>, skipped: seq<Path>, count: nat)
    requires i < |present| && CollectedTo(sc, present, i, entries, leftOut, held)
    requires WalkOf(sc, present[i], added, skipped, count)
    ensures CollectedTo(sc, present, i + 1, entries + [present[i]] + added, leftOut + skipped, held + count)
  {
    TargetListed(sc, present[i], added);
    OneMoreCounted(sc, present, i);
    OneMoreTarget(sc, present, i, entries, [present[i]] + added);
    Bytes.Associative(entries, [present[i]], added);
  }

  /** collect: one pass over the targets that are there. */
  method Collect(sc: Scene, present: seq<Path>) returns (c: Collector)
    requires WellFormed(sc.state) && forall t :: t in present ==> t in sc.state
    ensures fresh(c) && c.sc == sc
    ensures forall q :: q in c.entries <==> q in Members(sc, present)
    ensures NotNested(present) ==> Listing.Lists(c.entries, Members(sc, present))
    ensures forall q :: q in c.leftOut <==> q in AllLeftOut(sc, present)
    ensures c.trackedCount == AllHeld(sc, present)
  {
    c := new Collector(sc);
    for i := 0 to |present|
      invariant fresh(c) && c.sc == sc && CollectedTo(sc, present, i, c.entries, c.leftOut, c.trackedCount)
    {
      var t := present[i];
      ghost var entries, leftOut, held := c.entries, c.leftOut, c.trackedCount;
      ghost var added, skipped := [], [];
      c.entries := c.entries + [t];
      if sc.state[t].Dir? {
        added, skipped := c.Walk(t);
      }
      CollectedMore(sc, present, i, entries, leftOut, held, added, skipped, c.trackedCount - held);
      assert entries + [t] + [] == entries + [t] && leftOut + [] == leftOut;
    }
    assert present[..|present|] == present;
  }
}
