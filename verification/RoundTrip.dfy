/** From a dead mineral to a new one: the members collect archives, unpacked beside the new
    mineral and laid over it, give back everything the archive was for. */
module RoundTrip {
  import opened FileTree
  import opened Backup
  import opened Restore

  /** tar with an explicit member list and no recursion. */
  ghost function Archive(state: Tree, members: set<Path>): Tree {
    map q | q in members && q in state :: state[q]
  }

  /** Every path that unpacking makes: the members and what is above them. */
  ghost function Made(archive: Tree): set<Path> {
    {[]} + archive.Keys + set m, k | m in archive && 0 <= k < |m| :: m[..k]
  }

  /** tar -x into an empty staging directory. Missing parents are made with tar's own mode. */
  ghost function Unpacked(archive: Tree, implied: Mode): Tree {
    map q | q in Made(archive) :: if q in archive then archive[q] else Dir(implied)
  }

  /** Every target is there, is no fifo or socket, and has nothing to do with the door. */
  ghost predicate Archivable(sc: Scene, targets: seq<Path>) {
    && WellFormed(sc.state)
    && forall t :: t in targets ==> t in sc.state && !sc.state[t].Special?
                                    && t != [] && t[0] !in NEVER_FROM_SNAPSHOT
  }

  lemma MembersArePlain(sc: Scene, targets: seq<Path>, q: Path)
    requires Archivable(sc, targets) && q in Members(sc, targets)
    ensures q in sc.state && !sc.state[q].Special? && q != [] && q[0] !in NEVER_FROM_SNAPSHOT
    ensures q in Archive(sc.state, Members(sc, targets))
  {
    MembersUnder(sc, targets, q);
    var t :| t in targets && q in TargetMembers(sc, t);
    assert t <= q && t[0] == q[0];
  }

  lemma MadeAreDirs(sc: Scene, targets: seq<Path>, q: Path)
    requires Archivable(sc, targets)
    requires q in Made(Archive(sc.state, Members(sc, targets)))
    ensures q in sc.state && !sc.state[q].Special?
    ensures q !in Members(sc, targets) ==> IsDir(sc.state, q)
    ensures q != [] ==> q[0] !in NEVER_FROM_SNAPSHOT && Parent(q) in Made(Archive(sc.state, Members(sc, targets)))
  {
    var a := Archive(sc.state, Members(sc, targets));
    if q in Members(sc, targets) {
      MembersArePlain(sc, targets, q);
      AboveIsMade(a, q, |q| - 1);
    } else if q != [] {
      var m, k :| m in a && 0 <= k < |m| && m[..k] == q;
      MembersArePlain(sc, targets, m);
      AncestorIsDir(sc.state, q, m);
      AboveIsMade(a, m, k - 1);
    }
  }

  lemma AboveIsMade(archive: Tree, m: Path, k: nat)
    requires m in archive && k < |m|
    ensures m[..k] in Made(archive)
    ensures k + 1 < |m| ==> Parent(m[..k + 1]) == m[..k]
  {
  }

  /** The snapshot as it lies unpacked. */
  ghost function Snapshot(sc: Scene, targets: seq<Path>, implied: Mode): Tree {
    Unpacked(Archive(sc.state, Members(sc, targets)), implied)
  }

  lemma SnapshotRestorable(sc: Scene, targets: seq<Path>, implied: Mode)
    requires Archivable(sc, targets)
    ensures Restorable(Snapshot(sc, targets, implied))
    ensures forall q :: q in Snapshot(sc, targets, implied) && q != [] ==> q[0] in Tops(Snapshot(sc, targets, implied))
  {
    var snap := Snapshot(sc, targets, implied);
    if [] in Members(sc, targets) {
      MembersArePlain(sc, targets, []);
    }
    forall q | q in snap
      ensures !snap[q].Special? && (q != [] ==> IsDir(snap, Parent(q)) && q[0] !in NEVER_FROM_SNAPSHOT)
    {
      MadeAreDirs(sc, targets, q);
      if q != [] {
        MadeAreDirs(sc, targets, Parent(q));
        AncestorIsDir(sc.state, Parent(q), q);
      }
    }
    forall q | q in snap && q != []
      ensures q[0] in Tops(snap)
    {
      TopListed(snap, q);
    }
  }

  /** Nothing excuses an archive from holding q for the target t: it is the target, or the policy
      spares it and it is a folder or nothing git has. */
  ghost predicate Due(sc: Scene, t: Path, q: Path) {
    q == t || (Spared(sc.policy, |t|, q) && (IsDir(sc.state, q) || q !in sc.tracked))
  }

  /** What a target was archived for: below it, every file or link git does not hold, and every
      directory, is a member unless the policy leaves it or something above it out. */
  lemma MemberOrExcused(sc: Scene, targets: seq<Path>, t: Path, q: Path)
    requires Archivable(sc, targets) && t in targets && t <= q && q in sc.state && !sc.state[q].Special?
    ensures Due(sc, t, q) ==> q in Members(sc, targets)
    ensures (forall u :: u in targets && u <= q ==> u == t) ==> (q in Members(sc, targets) <==> Due(sc, t, q))
  {
    MembersAre(sc, targets, q);
    if q != t {
      ProperPrefix(t, q);
      assert Due(sc, t, q) <==> ArchivedFrom(sc, t, q);
    }
  }

  /** Back up any state and apply the snapshot, once it has opened, over any mineral: everything
      under a target is back with its bytes, owner bits only, unless git tracked it or the policy
      excluded it. Which snapshots open is BackupOpens in OpenSnapshot. */
  lemma OldStateComesBack(sc: Scene, targets: seq<Path>, implied: Mode, mineral: Tree, t: Path, q: Path)
    requires Archivable(sc, targets) && WellFormed(mineral)
    requires t in targets && t <= q && q in sc.state && !sc.state[q].Special?
    ensures var after := Applied(mineral, Snapshot(sc, targets, implied));
      Due(sc, t, q) ==> q in after && OwnerOnly(after[q], sc.state[q])
  {
    MemberOrExcused(sc, targets, t, q);
    if q in Members(sc, targets) {
      MembersArePlain(sc, targets, q);
      SnapshotRestorable(sc, targets, implied);
      WhatIsLaid(mineral, Snapshot(sc, targets, implied), q);
    }
  }

  /** What the new mineral had and the snapshot does not hold stays exactly when the snapshot puts
      no file or link above it; under a restored name it then loses only group and other bits. */
  lemma NewStateStays(sc: Scene, targets: seq<Path>, implied: Mode, mineral: Tree, q: Path)
    requires Archivable(sc, targets)
    ensures var snap := Snapshot(sc, targets, implied); var after := Applied(mineral, snap);
      q in mineral && q !in snap ==>
        && (q in after <==> !Shadowed(snap, [], q))
        && (q in after ==>
              if q != [] && q[0] in Tops(snap) then OwnerOnly(after[q], mineral[q]) else after[q] == mineral[q])
  {
    var snap := Snapshot(sc, targets, implied);
    SnapshotRestorable(sc, targets, implied);
    assert [] in snap && IsDir(snap, []);
    if q in mineral {
      TightIs(mineral[q]);
    }
    if r :| r in snap && !snap[r].Dir? && r < q {
      assert r != [] && [r[0]] <= r && r[0] == q[0] && r[0] in Tops(snap);
    }
  }

  /** A path the snapshot left to git or to a tool is whatever the new mineral makes of it. */
  lemma ExcusedPathsAreTheMinerals(sc: Scene, targets: seq<Path>, implied: Mode, mineral: Tree, q: Path)
    requires Archivable(sc, targets) && WellFormed(mineral)
    requires q in sc.state && q !in Snapshot(sc, targets, implied)
    ensures q in Applied(mineral, Snapshot(sc, targets, implied)) <==> q in mineral
    ensures q in mineral ==> var e := Applied(mineral, Snapshot(sc, targets, implied))[q];
      e == mineral[q] || OwnerOnly(e, mineral[q])
  {
    var snap := Snapshot(sc, targets, implied);
    forall r | r in snap && r < q
      ensures snap[r].Dir?
    {
      MadeAreDirs(sc, targets, r);
      AncestorIsDir(sc.state, r, q);
    }
    if q in mineral {
      TightIs(mineral[q]);
    }
  }
}
