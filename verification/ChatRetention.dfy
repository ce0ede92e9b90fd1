/** Deleting saved chats older than the member's retention. */
module ChatRetention {
  import opened FileTree
  import Bytes

  const DAY := 86400000.0
  const DEFAULT_DAYS := 30.0

  /** cleanupPeriodDays as settings.json has it: None for anything that is not a finite number. */
  function RetentionDays(setting: Bytes.Option<real>): real {
    if setting.Some? && setting.value >= 1.0 then setting.value else DEFAULT_DAYS
  }

  /** One run's view of time: when each file was last written, and from when on files are kept. */
  datatype Clock = Clock(mtime: Path -> real, cutoff: real)

  predicate IsTranscript(t: Tree, q: Path) {
    q != [] && q in t && t[q].File? && ChatName(q[|q| - 1])
  }

  predicate Expired(t: Tree, c: Clock, q: Path) {
    IsTranscript(t, q) && c.mtime(q) < c.cutoff
  }

  /** Something that is no folder and does not go. */
  predicate Stays(t: Tree, c: Clock, q: Path) {
    q in t && !t[q].Dir? && !Expired(t, c, q)
  }

  /** A file goes when it has expired; a folder goes when nothing below it stays. */
  ghost predicate Survives(t: Tree, c: Clock, q: Path) {
    Stays(t, c, q) || (IsDir(t, q) && exists r :: Stays(t, c, r) && q < r)
  }

  /** The tree with everything below dir pruned; below the children named, in the second form. */
  ghost function Pruned(t: Tree, c: Clock, dir: Path): Tree {
    map q | q in t && (dir < q ==> Survives(t, c, q)) :: t[q]
  }

  ghost function PrunedNames(t: Tree, c: Clock, dir: Path, names: set<Name>): Tree {
    map q | q in t && (dir < q && q[|dir|] in names ==> Survives(t, c, q)) :: t[q]
  }

  /** The transcripts of a tree, and those of them that have expired. */
  ghost function Transcripts(t: Tree): set<Path> {
    set q | q in t && IsTranscript(t, q)
  }

  ghost function ExpiredOnes(t: Tree, c: Clock): set<Path> {
    set q | q in t && Expired(t, c, q)
  }

  /** The paths of a set that lie under the children of dir named. */
  ghost function Under(paths: set<Path>, dir: Path, names: set<Name>): set<Path> {
    set q | q in paths && dir < q && q[|dir|] in names
  }

  /** How many chats lie under the children of dir named, and how many of them have expired. */
  ghost function Saved(t: Tree, dir: Path, names: set<Name>): nat {
    |Under(Transcripts(t), dir, names)|
  }

  ghost function Gone(t: Tree, c: Clock, dir: Path, names: set<Name>): nat {
    |Under(ExpiredOnes(t, c), dir, names)|
  }

  /** A folder survives exactly when one of its children does. */
  lemma SurvivesByChild(t: Tree, c: Clock, d: Path)
    requires WellFormed(t) && IsDir(t, d)
    ensures Survives(t, c, d) <==> exists n :: n in Names(t, d) && Survives(t, c, d + [n])
  {
    if Survives(t, c, d) {
      var r :| Stays(t, c, r) && d < r;
      ChildOnTheWay(t, d, r);
      var k := d + [r[|d|]];
      if k != r {
        ProperPrefix(k, r);
        AncestorIsDir(t, k, r);
      }
      assert Survives(t, c, k);
    }
    if n :| n in Names(t, d) && Survives(t, c, d + [n]) {
      if !Stays(t, c, d + [n]) {
        var r :| Stays(t, c, r) && d + [n] < r;
        assert d < r;
      } else {
        assert d < d + [n];
      }
    }
  }

  /** Paths under one more child are those at or below it. */
  lemma UnderOneMore(dir: Path, names: set<Name>, n: Name, q: Path)
    ensures dir + [n] <= q <==> dir < q && q[|dir|] == n
  {
    assert dir < q ==> dir + [q[|dir|]] <= q;
  }

  /** Two trees with the same subtree at p. */
  ghost predicate Agree(t: Tree, u: Tree, p: Path) {
    forall r :: p <= r ==> (r in t <==> r in u) && (r in t ==> t[r] == u[r])
  }

  lemma SurvivesLocally(t: Tree, u: Tree, c: Clock, p: Path, q: Path)
    requires Agree(t, u, p) && p <= q
    ensures Survives(t, c, q) <==> Survives(u, c, q)
    ensures Expired(t, c, q) <==> Expired(u, c, q)
  {
    if r :| Stays(t, c, r) && q < r {
      assert p <= r && Stays(u, c, r);
    }
    if r :| Stays(u, c, r) && q < r {
      assert p <= r && Stays(t, c, r);
    }
  }

  lemma ChildUntouched(t: Tree, c: Clock, dir: Path, names: set<Name>, n: Name)
    requires n !in names
    ensures Agree(t, PrunedNames(t, c, dir, names), dir + [n])
  {
    forall r | dir + [n] <= r
      ensures r in t <==> r in PrunedNames(t, c, dir, names)
    {
      UnderOneMore(dir, names, n, r);
    }
  }

  /** Pruning below the child n, then keeping or dropping the child itself, is one name done. */
  lemma PruneChild(t: Tree, c: Clock, dir: Path, names: set<Name>, n: Name)
    requires WellFormed(t) && n !in names && dir + [n] in t
    ensures var below := Pruned(PrunedNames(t, c, dir, names), c, dir + [n]);
      PrunedNames(t, c, dir, names + {n}) == if Survives(t, c, dir + [n]) then below else below - {dir + [n]}
  {
    var k := dir + [n];
    var a, below := PrunedNames(t, c, dir, names + {n}), Pruned(PrunedNames(t, c, dir, names), c, k);
    forall q
      ensures q in a <==> q in below && (q == k ==> Survives(t, c, k))
    {
      PruneChildAt(t, c, dir, names, n, q);
    }
    SameBut(a, below, k, Survives(t, c, k));
  }

  /** Two trees that differ at most in whether k is there. */
  lemma SameBut(a: Tree, below: Tree, k: Path, there: bool)
    requires forall q :: q in a <==> q in below && (q == k ==> there)
    requires forall q :: q in a && q in below ==> a[q] == below[q]
    ensures a == if there then below else below - {k}
  {
    assert a.Keys == if there then below.Keys else below.Keys - {k};
  }

  lemma PruneChildAt(t: Tree, c: Clock, dir: Path, names: set<Name>, n: Name, q: Path)
    requires WellFormed(t) && n !in names && dir + [n] in t
    ensures q in PrunedNames(t, c, dir, names + {n})
      <==> q in Pruned(PrunedNames(t, c, dir, names), c, dir + [n]) && (q == dir + [n] ==> Survives(t, c, q))
  {
    UnderOneMore(dir, names, n, q);
    if dir + [n] <= q {
      ChildUntouched(t, c, dir, names, n);
      SurvivesLocally(t, PrunedNames(t, c, dir, names), c, dir + [n], q);
      if dir + [n] != q {
        ProperPrefix(dir + [n], q);
      }
    }
  }

  /** A pruned folder is empty exactly when it does not survive. */
  lemma EmptiedFolder(t: Tree, c: Clock, dir: Path, names: set<Name>, n: Name)
    requires WellFormed(t) && n !in names && IsDir(t, dir + [n])
    ensures Names(Pruned(PrunedNames(t, c, dir, names), c, dir + [n]), dir + [n]) == {} <==> !Survives(t, c, dir + [n])
  {
    var u, k := PrunedNames(t, c, dir, names), dir + [n];
    ChildUntouched(t, c, dir, names, n);
    SurvivesByChild(t, c, k);
    forall m
      ensures m in Names(Pruned(u, c, k), k) <==> m in Names(t, k) && Survives(t, c, k + [m])
    {
      assert k < k + [m];
      SurvivesLocally(t, u, c, k, k + [m]);
    }
  }

  lemma PrunedNothing(t: Tree, c: Clock, dir: Path)
    ensures PrunedNames(t, c, dir, {}) == t
  {
    assert PrunedNames(t, c, dir, {}).Keys == t.Keys;
  }

  lemma PrunedAll(t: Tree, c: Clock, dir: Path)
    requires WellFormed(t)
    ensures PrunedNames(t, c, dir, Names(t, dir)) == Pruned(t, c, dir)
  {
    var a, b := PrunedNames(t, c, dir, Names(t, dir)), Pruned(t, c, dir);
    forall q | q in t && dir < q {
      ChildOnTheWay(t, dir, q);
    }
    assert a.Keys == b.Keys;
  }

  /** Pruning leaves a well-formed tree: whatever survives keeps its folders. */
  lemma PrunedWellFormed(t: Tree, c: Clock, dir: Path, names: set<Name>)
    requires WellFormed(t)
    ensures WellFormed(PrunedNames(t, c, dir, names))
  {
    var u := PrunedNames(t, c, dir, names);
    assert !(dir < []);
    forall q | q in u && q != []
      ensures IsDir(u, Parent(q))
    {
      var p := Parent(q);
      if dir < p && p[|dir|] in names {
        assert dir < q && q[|dir|] == p[|dir|];
        assert p < q;
        ParentSurvives(t, c, q);
      }
    }
  }

  lemma ParentSurvives(t: Tree, c: Clock, q: Path)
    requires WellFormed(t) && q != [] && Survives(t, c, q)
    ensures Survives(t, c, Parent(q))
  {
    var p := Parent(q);
    assert p < q;
    if !Stays(t, c, q) {
      var r :| Stays(t, c, r) && q < r;
      assert p < r;
    }
  }

  lemma AllDone(t: Tree, c: Clock, dir: Path, done: set<Name>)
    requires WellFormed(t) && done == Names(t, dir)
    ensures PrunedNames(t, c, dir, done) == Pruned(t, c, dir) && WellFormed(Pruned(t, c, dir))
  {
    PrunedAll(t, c, dir);
    PrunedWellFormed(t, c, dir, done);
  }

  // ---------------------------------------------------------------- counting

  /** A path under the child n of dir is that child, or under one of the child's own children. */
  lemma ChildOrBelow(t: Tree, dir: Path, n: Name, q: Path)
    requires WellFormed(t) && q in t && dir + [n] in t
    ensures var k := dir + [n]; dir < q && q[|dir|] == n <==> q == k || (k < q && q[|k|] in Names(t, k))
  {
    var k := dir + [n];
    UnderOneMore(dir, {}, n, q);
    if k < q {
      ChildOnTheWay(t, k, q);
    } else if k <= q && q != k {
      ProperPrefix(k, q);
    }
  }

  lemma UnderChild(t: Tree, paths: set<Path>, dir: Path, names: set<Name>, n: Name)
    requires WellFormed(t) && paths <= t.Keys && dir + [n] in t
    ensures Under(paths, dir, names + {n}) == Under(paths, dir, names)
      + Under(paths, dir + [n], Names(t, dir + [n])) + (paths * {dir + [n]})
  {
    forall q | q in paths {
      ChildOrBelow(t, dir, n, q);
    }
  }

  lemma CountChild(t: Tree, paths: set<Path>, dir: Path, names: set<Name>, n: Name)
    requires WellFormed(t) && paths <= t.Keys && n !in names && dir + [n] in t
    ensures |Under(paths, dir, names + {n})|
         == |Under(paths, dir, names)| + |Under(paths, dir + [n], Names(t, dir + [n]))|
            + (if dir + [n] in paths then 1 else 0)
  {
    var k := dir + [n];
    UnderChild(t, paths, dir, names, n);
    assert paths * {k} == if k in paths then {k} else {};
    forall q | q in Under(paths, k, Names(t, k))
      ensures q !in Under(paths, dir, names)
    {
      UnderOneMore(dir, names, n, q);
    }
    ThreeApart(Under(paths, dir, names), Under(paths, k, Names(t, k)), paths * {k});
  }

  lemma ThreeApart(a: set<Path>, b: set<Path>, c: set<Path>)
    requires a !! b && a !! c && b !! c
    ensures |a + b + c| == |a| + |b| + |c|
  {
  }

  /** What is under an untouched child is the same in both trees. */
  lemma SameUnder(t: Tree, u: Tree, c: Clock, k: Path)
    requires Agree(t, u, k)
    ensures Names(t, k) == Names(u, k)
    ensures Under(Transcripts(u), k, Names(u, k)) == Under(Transcripts(t), k, Names(t, k))
    ensures Under(ExpiredOnes(u, c), k, Names(u, k)) == Under(ExpiredOnes(t, c), k, Names(t, k))
  {
    forall n
      ensures n in Names(t, k) <==> n in Names(u, k)
    {
      assert k <= k + [n];
    }
  }

  // ---------------------------------------------------------------- the walk

  class Chats {
    var nodes: Tree
    var removed: nat
    var kept: nat

    constructor (t: Tree)
      ensures nodes == t && removed == 0 && kept == 0
    {
      nodes, removed, kept := t, 0, 0;
    }

    /** The walk below a folder: prune its folders and remove those left empty, remove expired
        transcripts, pass over links and everything else. */
    method Walk(c: Clock, dir: Path)
      requires WellFormed(nodes) && IsDir(nodes, dir)
      modifies this
      ensures nodes == Pruned(old(nodes), c, dir) && WellFormed(nodes)
      ensures removed == old(removed) + Gone(old(nodes), c, dir, Names(old(nodes), dir))
      ensures removed + kept == old(removed + kept) + Saved(old(nodes), dir, Names(old(nodes), dir))
      decreases Below(nodes, dir), 1
    {
      ghost var t := nodes;
      var todo := Names(nodes, dir);
      ghost var done: set<Name> := {};
      ghost var before, seen := removed, removed + kept;
      PrunedNothing(t, c, dir);
      while todo != {}
        invariant todo !! done && forall m :: m in Names(t, dir) <==> m in todo || m in done
        invariant nodes == PrunedNames(t, c, dir, done)
        invariant removed == before + Gone(t, c, dir, done)
        invariant removed + kept == seen + Saved(t, dir, done)
      {
        var n :| n in todo;
        Smaller(t, c, dir, done, n);
        Visit(c, dir, n, t, done);
        todo, done := todo - {n}, done + {n};
      }
      AllDone(t, c, dir, done);
    }

    /** The loop body: one entry of a folder. */
    method Visit(c: Clock, dir: Path, n: Name, ghost t: Tree, ghost done: set<Name>)
      requires WellFormed(t) && nodes == PrunedNames(t, c, dir, done) && n !in done && dir + [n] in t
      modifies this
      ensures nodes == PrunedNames(t, c, dir, done + {n})
      ensures removed - old(removed) == Gone(t, c, dir, done + {n}) - Gone(t, c, dir, done)
      ensures removed + kept - old(removed + kept) == Saved(t, dir, done + {n}) - Saved(t, dir, done)
      decreases Below(nodes, dir + [n]), 2
    {
      var p := dir + [n];
      ghost var u := nodes;
      ChildUntouched(t, c, dir, done, n);
      PrunedWellFormed(t, c, dir, done);
      PruneChild(t, c, dir, done, n);
      CountChild(t, ExpiredOnes(t, c), dir, done, n);
      CountChild(t, Transcripts(t), dir, done, n);
      SameUnder(t, u, c, p);
      SurvivesLocally(t, u, c, p, p);
      if nodes[p].Dir? {
        EmptiedFolder(t, c, dir, done, n);
        Walk(c, p);
        if Names(nodes, p) == {} {
          nodes := nodes - {p};
        }
      } else {
        LeafPruned(u, c, p);
        if IsTranscript(nodes, p) {
          if c.mtime(p) < c.cutoff {
            nodes := nodes - {p};
            removed := removed + 1;
          } else {
            kept := kept + 1;
          }
        }
      }
    }
  }

  lemma Smaller(t: Tree, c: Clock, dir: Path, names: set<Name>, n: Name)
    requires IsDir(t, dir) && n !in names
    ensures Below(PrunedNames(t, c, dir, names), dir + [n]) < Below(t, dir)
  {
    assert dir in Below(t, dir) && dir !in Below(PrunedNames(t, c, dir, names), dir + [n]);
  }

  /** Nothing lies below what is no folder. */
  lemma LeafPruned(t: Tree, c: Clock, p: Path)
    requires WellFormed(t) && p in t && !t[p].Dir?
    ensures Pruned(t, c, p) == t && Names(t, p) == {}
    ensures Survives(t, c, p) <==> !Expired(t, c, p)
  {
    NothingBelow(t, p);
    assert forall n :: p < p + [n];
    assert Pruned(t, c, p).Keys == t.Keys;
  }

  /** What a run at `now` keeps: chats written within the member's retention. */
  function ClockAt(mtime: Path -> real, now: real, setting: Bytes.Option<real>): Clock {
    Clock(mtime, now - RetentionDays(setting) * DAY)
  }

  /** pruneChats, over the projects folder; a box without one has nothing to prune. */
  method PruneChats(chats: Chats, root: Path, mtime: Path -> real, now: real, setting: Bytes.Option<real>)
    returns (removed: nat, kept: nat)
    requires WellFormed(chats.nodes)
    modifies chats
    ensures IsDir(old(chats.nodes), root) ==>
      chats.nodes == Pruned(old(chats.nodes), ClockAt(mtime, now, setting), root)
      && Counted(old(chats.nodes), ClockAt(mtime, now, setting), root, removed, kept)
    ensures !IsDir(old(chats.nodes), root) ==> chats.nodes == old(chats.nodes) && removed == kept == 0
  {
    removed, kept := 0, 0;
    var c := ClockAt(mtime, now, setting);
    if root in chats.nodes && chats.nodes[root].Dir? {
      chats.removed, chats.kept := 0, 0;
      chats.Walk(c, root);
      removed, kept := chats.removed, chats.kept;
    }
  }

  /** removed counts the expired transcripts below the root, kept the others. */
  ghost predicate Counted(t: Tree, c: Clock, root: Path, removed: nat, kept: nat) {
    removed == Gone(t, c, root, Names(t, root)) && removed + kept == Saved(t, root, Names(t, root))
  }

  // ---------------------------------------------------------------- what pruning comes to

  /** What stays and what goes: every file but the expired transcripts below the root, every link
      and other thing, and every folder but those left with nothing below them. */
  lemma ExactlyTheExpiredGo(t: Tree, c: Clock, root: Path, q: Path)
    requires WellFormed(t) && q in t
    ensures !t[q].Dir? ==> (q in Pruned(t, c, root) <==> !(root < q && Expired(t, c, q)))
    ensures t[q].Dir? && root < q ==> (q in Pruned(t, c, root) <==> exists n :: n in Names(Pruned(t, c, root), q))
    ensures !(root < q) ==> q in Pruned(t, c, root)
  {
    if t[q].Dir? && root < q {
      SurvivesByChild(t, c, q);
      forall n
        ensures n in Names(Pruned(t, c, root), q) <==> n in Names(t, q) && Survives(t, c, q + [n])
      {
        assert q < q + [n];
      }
    }
  }

  /** From the member's setting, a file's name and its age to whether it goes, spelled out: below the
      root exactly the regular files named like a chat and last written more days ago than the
      setting says, which is 30 unless it is a number of at least one. */
  lemma PrunedFile(t: Tree, root: Path, mtime: Path -> real, now: real, setting: Bytes.Option<real>, q: Path)
    requires WellFormed(t) && q in t && !t[q].Dir?
    ensures var days := if setting.Some? && setting.value >= 1.0 then setting.value else 30.0;
      q !in Pruned(t, ClockAt(mtime, now, setting), root) <==>
        && root < q && t[q].File? && |q[|q| - 1]| >= 6 && q[|q| - 1][|q[|q| - 1]| - 6..] == ".jsonl"
        && now - mtime(q) > days * 86400000.0
  {
  }

  /** The chats below a folder. */
  ghost function ChatsBelow(t: Tree, root: Path): set<Path> {
    set q | q in t && root < q && IsTranscript(t, q)
  }

  lemma ChatsUnder(t: Tree, c: Clock, root: Path)
    requires WellFormed(t)
    ensures Under(Transcripts(t), root, Names(t, root)) == ChatsBelow(t, root)
    ensures Under(ExpiredOnes(t, c), root, Names(t, root))
         == set q | q in ChatsBelow(t, root) && q !in Pruned(t, c, root)
  {
    forall q | q in t && root < q {
      ChildOnTheWay(t, root, q);
    }
  }

  /** And the counts: of those that went, and of the chats that were left. */
  lemma CountedChats(t: Tree, c: Clock, root: Path, removed: nat, kept: nat)
    requires WellFormed(t) && IsDir(t, root) && Counted(t, c, root, removed, kept)
    ensures removed == |set q | q in ChatsBelow(t, root) && q !in Pruned(t, c, root)|
    ensures kept == |set q | q in ChatsBelow(t, root) && q in Pruned(t, c, root)|
  {
    ChatsUnder(t, c, root);
    TwoParts(ChatsBelow(t, root), Pruned(t, c, root));
  }

  lemma TwoParts(chats: set<Path>, u: Tree)
    ensures |chats| == |set q | q in chats && q !in u| + |set q | q in chats && q in u|
  {
    var gone, left := set q | q in chats && q !in u, set q | q in chats && q in u;
    assert chats == gone + left && gone !! left;
  }

  /** Later and later: a run at a later time, or with a shorter retention, leaves what it would
      have left had the earlier run never been; the same time once more changes nothing. */
  lemma LaterAbsorbsEarlier(t: Tree, c: Clock, later: real, root: Path)
    requires c.cutoff <= later
    ensures Pruned(Pruned(t, c, root), c.(cutoff := later), root) == Pruned(t, c.(cutoff := later), root)
  {
    var d := c.(cutoff := later);
    var a, b := Pruned(Pruned(t, c, root), d, root), Pruned(t, d, root);
    forall q
      ensures q in a <==> q in b
    {
      if root < q {
        SurvivesEarlier(t, c, later, root, q);
      }
    }
    assert a.Keys == b.Keys;
  }

  lemma SurvivesEarlier(t: Tree, c: Clock, later: real, root: Path, q: Path)
    requires c.cutoff <= later && root < q
    ensures Survives(t, c, q) && Survives(Pruned(t, c, root), c.(cutoff := later), q)
       <==> Survives(t, c.(cutoff := later), q)
  {
    var d, u := c.(cutoff := later), Pruned(t, c, root);
    if Survives(t, d, q) && !Stays(t, d, q) {
      var r :| Stays(t, d, r) && q < r;
      assert root < r && Stays(t, c, r) && Stays(u, d, r);
    }
    if Survives(u, d, q) && !Stays(u, d, q) {
      var r :| Stays(u, d, r) && q < r;
      assert Stays(t, d, r);
    }
  }

  /** A run never goes by less than a day, whatever the setting. */
  lemma AtLeastADay(mtime: Path -> real, now: real, setting: Bytes.Option<real>, t: Tree, q: Path)
    requires Expired(t, ClockAt(mtime, now, setting), q)
    ensures mtime(q) < now - DAY
  {
    assert RetentionDays(setting) >= 1.0;
    assert RetentionDays(setting) * DAY >= 1.0 * DAY;
  }

  /** Kept is the transcripts there are afterwards, and removed plus kept those there were; of
      what is left, another run at the same time would remove none. */
  lemma KeptIsWhatIsLeft(t: Tree, c: Clock, root: Path)
    requires WellFormed(t)
    ensures var u := Pruned(t, c, root);
      && WellFormed(u) && Gone(u, c, root, Names(u, root)) == 0
      && Saved(u, root, Names(u, root)) + Gone(t, c, root, Names(t, root)) == Saved(t, root, Names(t, root))
  {
    var u := Pruned(t, c, root);
    PrunedAll(t, c, root);
    PrunedWellFormed(t, c, root, Names(t, root));
    var before, gone := Under(Transcripts(t), root, Names(t, root)), Under(ExpiredOnes(t, c), root, Names(t, root));
    assert Under(ExpiredOnes(u, c), root, Names(u, root)) == {};
    forall q
      ensures q in Under(Transcripts(u), root, Names(u, root)) <==> q in before - gone
    {
      if q in u && root < q {
        ChildOnTheWay(u, root, q);
      }
    }
    assert Under(Transcripts(u), root, Names(u, root)) == before - gone;
    assert gone <= before;
  }
}
