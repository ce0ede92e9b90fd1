/** Directory trees as the engine sees them through lstat, readdir, chmod and rm.

    A tree is a finite map from a path, a sequence of names, to what lies there. The root
    is the empty path, and nothing lies below a link: links are never followed. */
module FileTree {
  import opened Bytes

  type Name = string
  type Path = seq<Name>

  /** The twelve permission bits that chmod sets. */
  type Mode = bv12

  const OWNER: Mode := 0x1C0    // 0o700

  datatype Entry =
    | Dir(mode: Mode)
    | File(mode: Mode, bytes: seq<Byte>)
    | Link(target: string)
    | Special                   // a socket, a fifo, a device

  type Tree = map<Path, Entry>

  function Parent(p: Path): Path
    requires p != []
  {
    p[..|p| - 1]
  }

  predicate IsDir(t: Tree, p: Path) {
    p in t && t[p].Dir?
  }

  const TRANSCRIPT := ".jsonl"

  /** The name of a saved chat. */
  predicate ChatName(n: Name) {
    |TRANSCRIPT| <= |n| && n[|n| - |TRANSCRIPT|..] == TRANSCRIPT
  }

  /** Every entry but the root lies in a directory. */
  ghost predicate WellFormed(t: Tree) {
    && IsDir(t, [])
    && forall q :: q in t && q != [] ==> IsDir(t, Parent(q))
  }

  /** The names readdir lists in a directory. */
  function Names(t: Tree, dir: Path): (names: set<Name>)
    ensures forall n :: n in names <==> dir + [n] in t
  {
    var names := set q | q in t && |q| == |dir| + 1 && dir <= q :: q[|dir|];
    assert forall n :: dir + [n] in t ==> (dir + [n])[|dir|] in names;
    assert forall q :: q in t && |q| == |dir| + 1 && dir <= q ==> q == dir + [q[|dir|]];
    names
  }

  /** What `rm -r` leaves. */
  function Without(t: Tree, p: Path): Tree {
    map q | q in t && !(p <= q) :: t[q]
  }

  /** The paths of a tree at or below p; the measure of every recursive walk. */
  function Below(t: Tree, p: Path): set<Path> {
    set q | q in t && p <= q
  }

  /** A prefix that is not the whole is a proper prefix. */
  lemma ProperPrefix(p: Path, q: Path)
    requires p <= q && p != q
    ensures p < q && p + [q[|p|]] <= q
  {
    assert p == q[..|p|];
  }

  /** In a well-formed tree everything above an entry is a directory. */
  lemma {:induction false} AncestorIsDir(t: Tree, r: Path, q: Path)
    requires WellFormed(t) && q in t && r < q
    ensures IsDir(t, r)
    decreases |q|
  {
    if r != Parent(q) {
      AncestorIsDir(t, r, Parent(q));
    }
  }

  /** The name under which q lies in the directory dir, and that it is listed there. */
  lemma ChildOnTheWay(t: Tree, dir: Path, q: Path)
    requires WellFormed(t) && q in t && dir < q
    ensures dir + [q[|dir|]] <= q && q[|dir|] in Names(t, dir)
  {
    var c := dir + [q[|dir|]];
    assert c <= q;
    if c != q {
      AncestorIsDir(t, c, q);
    }
  }

  /** Only a directory has anything below it. */
  lemma NothingBelow(t: Tree, p: Path)
    requires WellFormed(t)
    ensures forall q :: q in t && p < q ==> IsDir(t, p)
  {
    forall q | q in t && p < q
      ensures IsDir(t, p)
    {
      AncestorIsDir(t, p, q);
    }
  }
}
