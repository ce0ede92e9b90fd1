/** Laying an unpacked snapshot over a mineral: mergeInto and applySnapshot. */
module Restore {
  import opened FileTree
  import Listing

  /** Top-level names that no snapshot may write: the door, and the backup itself. */
  const NEVER_FROM_SNAPSHOT: set<Name> := {".git", "ssh", ".ssh", "devices", "support", "backups"}

  const TELEGRAM_FILES: set<Path> := {["secrets", "telegram_bot_token"], ["secrets", "telegram_chat_id"]}

  /** What unpacking an archive yields: a tree of directories, files and links. */
  ghost predicate Restorable(src: Tree) {
    WellFormed(src) && forall q :: q in src ==> !src[q].Special?
  }

  // ---------------------------------------------------------------- the overlay, path by path

  /** Some proper ancestor of q, at or below p, is a file or a link in src. */
  ghost predicate Shadowed(src: Tree, p: Path, q: Path) {
    exists r :: r in src && !src[r].Dir? && p <= r < q
  }

  /** What lies at q once src has been laid over dst at and below p. */
  ghost predicate InOverlay(dst: Tree, src: Tree, p: Path, q: Path) {
    (p <= q && q in src) || (q in dst && !Shadowed(src, p, q))
  }

  ghost function Overlay(dst: Tree, src: Tree, p: Path): Tree {
    map q | q in dst.Keys + src.Keys && InOverlay(dst, src, p, q)
      :: if p <= q && q in src then src[q] else dst[q]
  }

  /** The overlay restricted to the children of p named in `done`; the loop of MergeInto. */
  ghost predicate Reached(p: Path, done: set<Name>, q: Path) {
    p < q && q[|p|] in done
  }

  ghost function OverlayNames(base: Tree, src: Tree, p: Path, done: set<Name>): Tree {
    map q | q in base.Keys + src.Keys
            && (if Reached(p, done, q) then InOverlay(base, src, p, q) else q in base)
      :: if Reached(p, done, q) && q in src then src[q] else base[q]
  }

  lemma ShadowedFromChild(src: Tree, p: Path, n: Name, q: Path)
    requires IsDir(src, p) && p + [n] <= q
    ensures Shadowed(src, p, q) <==> Shadowed(src, p + [n], q)
  {
    if Shadowed(src, p, q) {
      var r :| r in src && !src[r].Dir? && p <= r < q;
      assert r != p;
      ProperPrefix(p, r);
      assert p + [n] <= r;
    }
  }

  /** Merging one more child is one more name done. */
  lemma MergeOneName(base: Tree, src: Tree, p: Path, done: set<Name>, n: Name)
    requires IsDir(src, p) && n !in done
    ensures Overlay(OverlayNames(base, src, p, done), src, p + [n])
         == OverlayNames(base, src, p, done + {n})
  {
    var before := OverlayNames(base, src, p, done);
    var a, b := Overlay(before, src, p + [n]), OverlayNames(base, src, p, done + {n});
    forall q
      ensures q in a <==> q in b
      ensures q in a && q in b ==> a[q] == b[q]
    {
      if p + [n] <= q {
        assert q[|p|] == n;
        ShadowedFromChild(src, p, n, q);
      } else {
        assert p < q ==> p + [q[|p|]] <= q;
      }
    }
    assert a.Keys == b.Keys;
  }

  lemma OverlayOfNothing(base: Tree, src: Tree, p: Path)
    ensures OverlayNames(base, src, p, {}) == base
  {
    assert OverlayNames(base, src, p, {}).Keys == base.Keys;
  }

  /** What mergeInto has made of the directory p before it looks at the children. */
  ghost predicate Opened(dst: Tree, p: Path, base: Tree) {
    IsDir(base, p) && forall q :: q != p ==>
      if p < q && !IsDir(dst, p) then q !in base else (q in base <==> q in dst) && (q in base ==> base[q] == dst[q])
  }

  /** All children done and the directory's own mode set: the whole overlay. */
  lemma OverlayOfAllNames(dst: Tree, base: Tree, src: Tree, p: Path)
    requires WellFormed(dst) && WellFormed(src) && IsDir(src, p) && Opened(dst, p, base)
    ensures OverlayNames(base, src, p, Names(src, p))[p := src[p]] == Overlay(dst, src, p)
  {
    var a, b := OverlayNames(base, src, p, Names(src, p))[p := src[p]], Overlay(dst, src, p);
    forall q
      ensures q in a <==> q in b
      ensures q in a && q in b ==> a[q] == b[q]
    {
      OverlayOfAllAt(dst, base, src, p, q);
    }
    assert a.Keys == b.Keys;
  }

  lemma OverlayOfAllAt(dst: Tree, base: Tree, src: Tree, p: Path, q: Path)
    requires WellFormed(dst) && WellFormed(src) && IsDir(src, p) && Opened(dst, p, base)
    ensures var a, b := OverlayNames(base, src, p, Names(src, p))[p := src[p]], Overlay(dst, src, p);
      (q in a <==> q in b) && (q in a ==> a[q] == b[q])
  {
    var a, b := OverlayNames(base, src, p, Names(src, p))[p := src[p]], Overlay(dst, src, p);
    if q == p {
      assert q in a && q in b;
    } else if p < q {
      BelowOpened(dst, src, p, q);
    } else {
      NotShadowedOutside(src, p, q);
      assert q in base <==> q in dst;
    }
  }

  lemma NotShadowedOutside(src: Tree, p: Path, q: Path)
    requires !(p < q)
    ensures !Shadowed(src, p, q) && !Reached(p, Names(src, p), q)
  {
  }

  lemma BelowOpened(dst: Tree, src: Tree, p: Path, q: Path)
    requires WellFormed(dst) && WellFormed(src) && IsDir(src, p) && p < q
    ensures q in dst ==> IsDir(dst, p)
    ensures q[|p|] !in Names(src, p) ==> q !in src && !Shadowed(src, p, q)
  {
    if q in dst {
      AncestorIsDir(dst, p, q);
    }
    if q[|p|] !in Names(src, p) {
      if q in src {
        ChildOnTheWay(src, p, q);
      }
      forall r | r in src && p <= r < q
        ensures src[r].Dir?
      {
        if r != p {
          ProperPrefix(p, r);
          ChildOnTheWay(src, p, r);
        }
      }
    }
  }

  lemma LeafOverlay(dst: Tree, src: Tree, p: Path)
    requires WellFormed(src) && p in src && !src[p].Dir?
    ensures Without(dst, p)[p := src[p]] == Overlay(dst, src, p)
  {
    var a, b := Without(dst, p)[p := src[p]], Overlay(dst, src, p);
    forall q
      ensures q in a <==> q in b
    {
      BelowLeaf(dst, src, p, q);
    }
    assert a.Keys == b.Keys;
  }

  lemma BelowLeaf(dst: Tree, src: Tree, p: Path, q: Path)
    requires WellFormed(src) && p in src && !src[p].Dir?
    ensures InOverlay(dst, src, p, q) <==> q == p || (q in dst && !(p <= q))
  {
    if p <= q && p != q {
      ProperPrefix(p, q);
      if q in src {
        AncestorIsDir(src, p, q);
      }
    }
  }

  lemma OverlayWellFormed(dst: Tree, src: Tree, p: Path)
    requires WellFormed(dst) && WellFormed(src) && p in src && p != [] && IsDir(dst, Parent(p))
    ensures WellFormed(Overlay(dst, src, p))
  {
    var res := Overlay(dst, src, p);
    forall q | q in res && q != []
      ensures IsDir(res, Parent(q))
    {
      if q == p {
      } else if p <= q {
        ShadowedFromParent(src, p, q);
      }
    }
  }

  lemma ShadowedFromParent(src: Tree, p: Path, q: Path)
    requires p < q
    ensures p <= Parent(q)
    ensures Shadowed(src, p, q) <==> Shadowed(src, p, Parent(q)) || (Parent(q) in src && !src[Parent(q)].Dir?)
  {
    var u := Parent(q);
    if Shadowed(src, p, q) {
      var r :| r in src && !src[r].Dir? && p <= r < q;
      if r != u {
        ProperPrefix(r, u);
      }
    }
    if Shadowed(src, p, u) {
      var r :| r in src && !src[r].Dir? && p <= r < u;
      assert r < q;
    }
    if u in src && !src[u].Dir? {
      assert u < q;
    }
  }

  lemma OpenedWellFormed(dst: Tree, p: Path, base: Tree)
    requires WellFormed(dst) && Opened(dst, p, base) && p != [] && IsDir(dst, Parent(p))
    ensures WellFormed(base)
  {
    forall q | q in base && q != []
      ensures IsDir(base, Parent(q))
    {
      if q != p && p < Parent(q) {
        assert p < q;
      }
    }
  }

  /** One turn of the loop over the children of p. */
  lemma MergeStep(base: Tree, src: Tree, p: Path, done: set<Name>, n: Name)
    requires WellFormed(src) && IsDir(src, p) && n !in done && n in Names(src, p)
    requires WellFormed(OverlayNames(base, src, p, done)) && IsDir(OverlayNames(base, src, p, done), p)
    ensures Parent(p + [n]) == p && Below(src, p + [n]) < Below(src, p)
    ensures Overlay(OverlayNames(base, src, p, done), src, p + [n]) == OverlayNames(base, src, p, done + {n})
    ensures WellFormed(OverlayNames(base, src, p, done + {n}))
    ensures IsDir(OverlayNames(base, src, p, done + {n}), p)
  {
    MergeOneName(base, src, p, done, n);
    OverlayWellFormed(OverlayNames(base, src, p, done), src, p + [n]);
    assert p in Below(src, p) && p !in Below(src, p + [n]);
  }

  // ---------------------------------------------------------------- the whole snapshot

  /** The permission fix: owner bits only, links left alone. */
  function Tight(e: Entry): Entry {
    match e
    case Dir(m) => Dir(m & OWNER)
    case File(m, bytes) => File(m & OWNER, bytes)
    case Link(_) => e
    case Special => e
  }

  /** The owner's three bits as they were, and no other. */
  predicate OwnerBits(mode: Mode, was: Mode) {
    mode & 0xE3F == 0 && mode & 0x1C0 == was & 0x1C0
  }

  /** An entry as it was but for its mode, of which the owner's bits are left. */
  predicate OwnerOnly(e: Entry, was: Entry) {
    match was
    case Dir(m) => e.Dir? && OwnerBits(e.mode, m)
    case File(m, bytes) => e.File? && OwnerBits(e.mode, m) && e.bytes == bytes
    case Link(target) => e == Link(target)
    case Special => e.Special?
  }

  lemma TightIs(e: Entry)
    ensures OwnerOnly(Tight(e), e)
  {
    if e.Dir? || e.File? {
      OwnerBitsLeft(e.mode);
    }
  }

  lemma OwnerBitsLeft(m: Mode)
    ensures OwnerBits(m & OWNER, m)
  {
  }

  ghost function TightBelow(t: Tree, p: Path): Tree {
    map q | q in t :: if p <= q then Tight(t[q]) else t[q]
  }

  /** The top-level names a snapshot may write. */
  function Tops(src: Tree): set<Name> {
    Names(src, []) - NEVER_FROM_SNAPSHOT
  }

  /** The mineral after the tops in `done` have been laid over it and tightened. */
  ghost function AppliedTops(dst: Tree, src: Tree, done: set<Name>): Tree {
    map q | q in dst.Keys + src.Keys
            && (if q != [] && q[0] in done then InOverlay(dst, src, [q[0]], q) else q in dst)
      :: if q != [] && q[0] in done then Tight(if q in src then src[q] else dst[q]) else dst[q]
  }

  ghost function Applied(dst: Tree, src: Tree): Tree {
    AppliedTops(dst, src, Tops(src))
  }

  lemma ApplyOneTop(dst: Tree, src: Tree, done: set<Name>, n: Name)
    requires n !in done
    ensures TightBelow(Overlay(AppliedTops(dst, src, done), src, [n]), [n]) == AppliedTops(dst, src, done + {n})
  {
    var before := AppliedTops(dst, src, done);
    var a, b := TightBelow(Overlay(before, src, [n]), [n]), AppliedTops(dst, src, done + {n});
    forall q
      ensures q in a <==> q in b
      ensures q in a ==> a[q] == b[q]
    {
      if q != [] && q[0] == n {
        ApplyUnderTop(dst, src, done, n, q);
      } else {
        ApplyElsewhere(dst, src, done, n, q);
      }
    }
    assert a.Keys == b.Keys;
  }

  lemma ApplyUnderTop(dst: Tree, src: Tree, done: set<Name>, n: Name, q: Path)
    requires n !in done && q != [] && q[0] == n
    ensures var a := TightBelow(Overlay(AppliedTops(dst, src, done), src, [n]), [n]);
      var b := AppliedTops(dst, src, done + {n});
      (q in a <==> q in b) && (q in a ==> a[q] == b[q])
  {
    assert [n] <= q;
  }

  lemma ApplyElsewhere(dst: Tree, src: Tree, done: set<Name>, n: Name, q: Path)
    requires q == [] || q[0] != n
    ensures var a := TightBelow(Overlay(AppliedTops(dst, src, done), src, [n]), [n]);
      var b := AppliedTops(dst, src, done + {n});
      (q in a <==> q in b) && (q in a ==> a[q] == b[q])
  {
    assert !([n] <= q) && !Shadowed(src, [n], q);
  }

  /** TightBelow restricted to p itself and the children named in `done`. */
  ghost function TightNames(t: Tree, p: Path, done: set<Name>): Tree {
    map q | q in t :: if q == p || Reached(p, done, q) then Tight(t[q]) else t[q]
  }

  lemma TightWellFormed(t: Tree, u: Tree)
    requires WellFormed(t) && u.Keys == t.Keys && forall q :: q in t ==> u[q].Dir? == t[q].Dir?
    ensures WellFormed(u)
  {
  }

  lemma SameKeys(t: Tree, u: Tree, p: Path)
    requires t.Keys == u.Keys
    ensures Names(t, p) == Names(u, p) && Below(t, p) == Below(u, p)
  {
    assert forall n :: n in Names(t, p) <==> n in Names(u, p);
  }

  lemma TightStart(t: Tree, p: Path)
    requires p in t
    ensures t[p := Tight(t[p])] == TightNames(t, p, {})
  {
    assert TightNames(t, p, {}).Keys == t.Keys;
  }

  lemma TightLeaf(t: Tree, p: Path)
    requires WellFormed(t) && p in t && !t[p].Dir?
    ensures TightNames(t, p, {}) == TightBelow(t, p)
  {
    assert TightNames(t, p, {}).Keys == t.Keys == TightBelow(t, p).Keys;
    forall q | q in t && p <= q
      ensures q == p
    {
      if q != p {
        ProperPrefix(p, q);
        AncestorIsDir(t, p, q);
      }
    }
  }

  lemma TightStep(t: Tree, p: Path, done: set<Name>, n: Name)
    requires WellFormed(t) && IsDir(t, p) && n in Names(t, p)
    ensures TightBelow(TightNames(t, p, done), p + [n]) == TightNames(t, p, done + {n})
    ensures WellFormed(TightNames(t, p, done)) && Below(TightNames(t, p, done), p + [n]) < Below(t, p)
  {
    var u := TightNames(t, p, done);
    TightWellFormed(t, u);
    SameKeys(t, u, p);
    assert p in Below(t, p) && p !in Below(u, p + [n]);
    TightOneName(t, p, done, n);
  }

  lemma TightOneName(t: Tree, p: Path, done: set<Name>, n: Name)
    ensures TightBelow(TightNames(t, p, done), p + [n]) == TightNames(t, p, done + {n})
  {
    var a, b := TightBelow(TightNames(t, p, done), p + [n]), TightNames(t, p, done + {n});
    forall q | q in t
      ensures a[q] == b[q]
    {
      if p + [n] <= q {
        assert q[|p|] == n;
      } else {
        assert p < q ==> p + [q[|p|]] <= q;
      }
      TightTwice(t[q]);
    }
    assert a.Keys == b.Keys;
  }

  lemma TightTwice(e: Entry)
    ensures Tight(Tight(e)) == Tight(e)
  {
  }

  lemma TightAll(t: Tree, p: Path)
    requires WellFormed(t) && IsDir(t, p)
    ensures TightNames(t, p, Names(t, p)) == TightBelow(t, p)
  {
    var a, b := TightNames(t, p, Names(t, p)), TightBelow(t, p);
    forall q | q in t
      ensures a[q] == b[q]
    {
      if p <= q && q != p {
        ProperPrefix(p, q);
        ChildOnTheWay(t, p, q);
      }
    }
    assert a.Keys == b.Keys;
  }

  /** The unpacked snapshot once --without-telegram has removed the old bot's files; existsSync
      does not see a dangling link, so such a link stays. */
  ghost function LeftBehind(src: Tree, withoutTelegram: bool, dangling: set<Path>): Tree {
    if withoutTelegram then src - (TELEGRAM_FILES - dangling) else src
  }

  /** Nothing but the two files is left behind, and only when asked. */
  lemma LeftBehindAt(src: Tree, withoutTelegram: bool, dangling: set<Path>, q: Path)
    ensures var left := LeftBehind(src, withoutTelegram, dangling);
      var bots := q == ["secrets", "telegram_bot_token"] || q == ["secrets", "telegram_chat_id"];
      && (q in left <==> q in src && !(withoutTelegram && bots && q !in dangling))
      && (q in left ==> left[q] == src[q])
  {
  }

  lemma ApplyNoTops(dst: Tree, src: Tree)
    ensures AppliedTops(dst, src, {}) == dst
  {
    assert AppliedTops(dst, src, {}).Keys == dst.Keys;
  }

  /** The sorted top-level names, skipping those no snapshot may write. */
  method AllowedTops(src: Tree) returns (tops: seq<Name>)
    ensures Listing.Ascending(tops) && forall n :: n in tops <==> n in Tops(src)
  {
    tops := [];
    var names := Listing.Sorted(Names(src, []));
    for i := 0 to |names|
      invariant Listing.Ascending(tops)
      invariant forall n :: n in tops <==> n in names[..i] && n !in NEVER_FROM_SNAPSHOT
      invariant forall n, k :: n in tops && i <= k < |names| ==> Listing.Less(n, names[k])
    {
      if names[i] !in NEVER_FROM_SNAPSHOT {
        Listing.AscendingAppend(tops, names[i]);
        tops := tops + [names[i]];
      }
    }
  }

  class Disk {
    var nodes: Tree

    constructor (t: Tree)
      ensures nodes == t
    {
      nodes := t;
    }

    /** Make p a directory its owner can write, replacing a file or link there. */
    method OpenDirectory(p: Path)
      requires WellFormed(nodes) && p != [] && IsDir(nodes, Parent(p))
      modifies this
      ensures Opened(old(nodes), p, nodes) && WellFormed(nodes)
      ensures nodes[p].mode & OWNER == OWNER
    {
      ghost var dst := nodes;
      if p in nodes && !nodes[p].Dir? {
        nodes := Without(nodes, p);
      }
      if p !in nodes {
        nodes := nodes[p := Dir(OWNER)];
      } else if nodes[p].mode & OWNER != OWNER {
        nodes := nodes[p := Dir(nodes[p].mode | OWNER)];
      }
      NothingBelow(dst, p);
      OpenedWellFormed(dst, p, nodes);
    }

    /** mergeInto: directories merge, everything else is replaced, src winning. */
    method MergeInto(src: Tree, p: Path)
      requires Restorable(src) && p in src
      requires WellFormed(nodes) && p != [] && IsDir(nodes, Parent(p))
      modifies this
      ensures nodes == Overlay(old(nodes), src, p)
      decreases Below(src, p)
    {
      ghost var dst := nodes;
      var s := src[p];
      if s.Dir? {
        OpenDirectory(p);
        ghost var base := nodes;
        var todo := Names(src, p);
        ghost var done: set<Name> := {};
        OverlayOfNothing(base, src, p);
        while todo != {}
          invariant todo !! done && todo + done == Names(src, p)
          invariant nodes == OverlayNames(base, src, p, done)
          invariant WellFormed(nodes) && IsDir(nodes, p)
        {
          var n :| n in todo;
          MergeStep(base, src, p, done, n);
          MergeInto(src, p + [n]);
          todo, done := todo - {n}, done + {n};
        }
        nodes := nodes[p := Dir(s.mode)];
        OverlayOfAllNames(dst, base, src, p);
      } else {
        nodes := Without(nodes, p);
        nodes := nodes[p := s];
        LeafOverlay(dst, src, p);
      }
    }

    /** The chmod walk: everything at or below p loses its group and other bits. */
    method Tighten(p: Path)
      requires WellFormed(nodes) && p in nodes
      modifies this
      ensures nodes == TightBelow(old(nodes), p) && WellFormed(nodes)
      decreases Below(nodes, p)
    {
      var t := nodes;
      nodes := nodes[p := Tight(t[p])];
      TightStart(t, p);
      if t[p].Dir? {
        var todo := Names(t, p);
        ghost var done: set<Name> := {};
        while todo != {}
          invariant todo !! done && todo + done == Names(t, p)
          invariant nodes == TightNames(t, p, done)
        {
          var n :| n in todo;
          TightStep(t, p, done, n);
          Tighten(p + [n]);
          todo, done := todo - {n}, done + {n};
        }
        TightAll(t, p);
      } else {
        TightLeaf(t, p);
      }
      TightWellFormed(t, TightBelow(t, p));
    }

    /** One top-level name: merge it, then fix its permissions. */
    method LayTop(src: Tree, top: Name, ghost dst: Tree, ghost done: set<Name>)
      requires Restorable(src) && [top] in src && top !in done
      requires WellFormed(nodes) && nodes == AppliedTops(dst, src, done)
      modifies this
      ensures WellFormed(nodes) && nodes == AppliedTops(dst, src, done + {top})
    {
      ApplyOneTop(dst, src, done, top);
      OverlayWellFormed(nodes, src, [top]);
      MergeInto(src, [top]);
      Tighten([top]);
    }

    /** The loop over the unpacked snapshot's top-level names, in order. */
    method LayTops(src: Tree) returns (restored: seq<Name>)
      requires Restorable(src) && WellFormed(nodes)
      modifies this
      ensures nodes == Applied(old(nodes), src) && WellFormed(nodes)
      ensures Listing.Ascending(restored) && forall n :: n in restored <==> n in Tops(src)
    {
      ghost var dst := nodes;
      ApplyNoTops(dst, src);
      restored := AllowedTops(src);
      Listing.FirstsAll(restored, Tops(src));
      for i := 0 to |restored|
        invariant WellFormed(nodes) && nodes == AppliedTops(dst, src, Listing.Firsts(restored, i))
      {
        assert restored[i] in Tops(src) && [] + [restored[i]] == [restored[i]];
        Listing.FirstsMore(restored, i);
        LayTop(src, restored[i], dst, Listing.Firsts(restored, i));
      }
    }

    /** Copy an unpacked snapshot over the mineral. It fails, with the mineral untouched, when a
        Telegram file to leave behind is a directory, which rm refuses. */
    method ApplySnapshot(unpacked: Tree, withoutTelegram: bool, dangling: set<Path>)
      returns (ok: bool, restored: seq<Name>)
      requires Restorable(unpacked) && WellFormed(nodes)
      requires forall f :: f in dangling && f in unpacked ==> unpacked[f].Link?
      modifies this
      ensures ok <==> !(withoutTelegram && exists f :: f in TELEGRAM_FILES && IsDir(unpacked, f))
      ensures !ok ==> nodes == old(nodes) && restored == []
      ensures ok ==> nodes == Applied(old(nodes), LeftBehind(unpacked, withoutTelegram, dangling))
      ensures ok ==> Listing.Ascending(restored) && forall n :: n in restored <==> n in Tops(unpacked)
      ensures WellFormed(nodes)
    {
      var src := unpacked;
      if withoutTelegram {
        if exists f | f in TELEGRAM_FILES :: IsDir(unpacked, f) {
          return false, [];
        }
        src := unpacked - (TELEGRAM_FILES - dangling);
        WithoutTelegramWellFormed(unpacked, dangling);
      }
      restored := LayTops(src);
      ok := true;
    }
  }

  lemma WithoutTelegramWellFormed(src: Tree, dangling: set<Path>)
    requires WellFormed(src) && forall f :: f in TELEGRAM_FILES ==> !IsDir(src, f)
    ensures WellFormed(src - (TELEGRAM_FILES - dangling))
    ensures Names(src - (TELEGRAM_FILES - dangling), []) == Names(src, [])
  {
    var r := src - (TELEGRAM_FILES - dangling);
    forall n
      ensures n in Names(r, []) <==> n in Names(src, [])
    {
      assert |[] + [n]| == 1;
    }
  }

  // ---------------------------------------------------------------- what a restore keeps and gives

  /** Merging the same snapshot again changes nothing. */
  lemma OverlayIdempotent(dst: Tree, src: Tree, p: Path)
    ensures Overlay(Overlay(dst, src, p), src, p) == Overlay(dst, src, p)
  {
    assert Overlay(Overlay(dst, src, p), src, p).Keys == Overlay(dst, src, p).Keys;
  }

  /** Merging is not associative: a directory over a file over a directory. Merged one at a
      time the file clears the old contents; the two later snapshots merged first do not. */
  lemma OverlayNotAssociative()
    ensures exists a: Tree, b: Tree, c: Tree ::
      && WellFormed(a) && WellFormed(b) && WellFormed(c)
      && Overlay(Overlay(a, b, []), c, []) != Overlay(a, Overlay(b, c, []), [])
  {
    var kid: Path, x: Path, root: Path := ["d", "kid"], ["d"], [];
    var a: Tree := map[root := Dir(0), x := Dir(0), kid := File(0, [])];
    var b: Tree := map[root := Dir(0), x := File(0, [])];
    var c: Tree := map[root := Dir(0), x := Dir(0)];
    assert Parent(kid) == x && Parent(x) == root;
    LeafClears(a, b, x, kid);
    FoldersKeep(b, c, kid);
    FoldersKeep(Overlay(a, b, []), c, kid);
    FoldersKeep(a, c, kid);
    assert Overlay(b, c, []).Keys == c.Keys;
  }

  lemma LeafClears(dst: Tree, src: Tree, r: Path, q: Path)
    requires r in src && !src[r].Dir? && r < q && q !in src
    ensures q !in Overlay(dst, src, [])
  {
  }

  lemma FoldersKeep(dst: Tree, src: Tree, q: Path)
    requires q !in src && forall r :: r in src ==> src[r].Dir?
    ensures q in Overlay(dst, src, []) <==> q in dst
  {
  }

  /** The door: whatever a snapshot holds, nothing under a name on the never list changes, and
      neither does the mineral's root. */
  lemma DoorUntouched(dst: Tree, src: Tree, q: Path)
    requires q == [] || q[0] in NEVER_FROM_SNAPSHOT
    ensures q in Applied(dst, src) <==> q in dst
    ensures q in dst ==> Applied(dst, src)[q] == dst[q]
  {
  }

  /** Restoring the same snapshot over a restored mineral changes nothing. */
  lemma AppliedIdempotent(dst: Tree, src: Tree)
    requires WellFormed(src)
    ensures Applied(Applied(dst, src), src) == Applied(dst, src)
  {
    var once := Applied(dst, src);
    forall q {
      AppliedTwiceAt(dst, src, q);
    }
    assert once.Keys == Applied(once, src).Keys;
  }

  lemma AppliedTwiceAt(dst: Tree, src: Tree, q: Path)
    requires WellFormed(src)
    ensures q in Applied(Applied(dst, src), src) <==> q in Applied(dst, src)
    ensures q in Applied(dst, src) ==> Applied(Applied(dst, src), src)[q] == Applied(dst, src)[q]
  {
    if q != [] && q in src {
      TopListed(src, q);
      TightTwice(src[q]);
    } else if q in dst {
      TightTwice(dst[q]);
    }
  }

  lemma TopListed(src: Tree, q: Path)
    requires WellFormed(src) && q in src && q != []
    ensures [q[0]] <= q && q[0] in Names(src, [])
  {
    ChildOnTheWay(src, [], q);
  }

  /** The old state wins: what a snapshot holds is there afterwards, a file with its bytes, a link
      with its target, and of the mode the owner's bits. */
  lemma WhatIsLaid(dst: Tree, src: Tree, q: Path)
    requires WellFormed(src) && q in src && q != [] && q[0] !in NEVER_FROM_SNAPSHOT
    ensures q in Applied(dst, src) && OwnerOnly(Applied(dst, src)[q], src[q])
    ensures Applied(dst, src)[q] == Tight(src[q])
  {
    TopListed(src, q);
    TightIs(src[q]);
  }

  /** The whole of it, path by path. The door and the root stay. Elsewhere what the snapshot holds
      is laid; what only the mineral has stays exactly when the snapshot has no file or link above
      it, and keeps no more than owner bits when its top-level name is one the snapshot has. */
  lemma AppliedAt(dst: Tree, src: Tree, q: Path)
    requires WellFormed(src)
    ensures var after := Applied(dst, src);
      if q == [] || q[0] in {".git", "ssh", ".ssh", "devices", "support", "backups"} then
        (q in after <==> q in dst) && (q in dst ==> after[q] == dst[q])
      else if q in src then q in after && OwnerOnly(after[q], src[q])
      else
        && (q in after <==> q in dst && forall k :: 0 <= k <= |q| && q[..k] in src ==> src[q[..k]].Dir?)
        && (q in after ==> if [q[0]] in src then OwnerOnly(after[q], dst[q]) else after[q] == dst[q])
  {
    if q != [] && q[0] !in NEVER_FROM_SNAPSHOT {
      if q in src {
        WhatIsLaid(dst, src, q);
      } else {
        ShadowedIs(src, q);
        if q in dst {
          TightIs(dst[q]);
        }
      }
    }
  }

  /** Where the top-level name is one to lay, a file or link above a path is at or below that name. */
  lemma ShadowedIs(src: Tree, q: Path)
    requires WellFormed(src) && q != [] && q !in src
    ensures (exists k :: 0 <= k <= |q| && q[..k] in src && !src[q[..k]].Dir?)
       <==> q[0] in Names(src, []) && Shadowed(src, [q[0]], q)
  {
    if k :| 0 <= k <= |q| && q[..k] in src && !src[q[..k]].Dir? {
      ShadowedBy(src, q, k);
    }
    if Shadowed(src, [q[0]], q) {
      var r :| r in src && !src[r].Dir? && [q[0]] <= r < q;
      assert r == q[..|r|];
    }
  }

  lemma ShadowedBy(src: Tree, q: Path, k: nat)
    requires WellFormed(src) && q != [] && q !in src && k <= |q| && q[..k] in src && !src[q[..k]].Dir?
    ensures q[0] in Names(src, []) && Shadowed(src, [q[0]], q)
  {
    assert q[..|q|] == q && q[..0] == [];
    TopListed(src, q[..k]);
    assert [q[0]] <= q[..k] < q;
  }

  /** Nothing else exists: a path of the restored mineral is the snapshot's or was its own. */
  lemma NothingElse(dst: Tree, src: Tree, q: Path)
    ensures q in Applied(dst, src) ==> q in src || q in dst
  {
  }
}
