/** The restored brain: one git tree composed from two others, and a commit over both histories. */
module GitRestore {
  import opened Bytes
  import opened Text
  import opened FileTree

  datatype Blob = Blob(link: bool, text: string)

  type GitTree = map<Path, Blob>

  datatype Commit = Commit(tree: GitTree, parents: seq<Commit>)

  /** Tracked paths that stay exactly as this mineral has them. */
  const KEEP_TRACKED: set<Name> := {"devices", "support", "box-name", "open-folder", "ownership.json"}

  const OPEN_FOLDER: Path := ["open-folder"]

  // ---------------------------------------------------------------- the folder links

  predicate PlainChar(c: char) {
    'a' <= c <= 'z' || '0' <= c <= '9' || c == '-'
  }

  /** A mineral's name: up to forty lower-case letters, digits and dashes, no dash first. */
  predicate PlainName(s: string) {
    1 <= |s| <= 40 && s[0] != '-' && forall i | 0 <= i < |s| :: PlainChar(s[i])
  }

  /** `git show <commit>:open-folder`, trimmed; empty when there is no such file. */
  function OpenFolder(t: GitTree): string {
    if OPEN_FOLDER in t then Trim(t[OPEN_FOLDER].text) else ""
  }

  /** The names this mineral keeps: the fixed ones, and the link the app opens. */
  function Keep(head: Option<GitTree>): set<Name> {
    var linkName := if head.Some? then OpenFolder(head.value) else "";
    KEEP_TRACKED + if PlainName(linkName) then {linkName} else {}
  }

  /** The old mineral's own folder link, if its tree has one that is not this mineral's. */
  function Drop(head: Option<GitTree>, target: GitTree): set<Name> {
    var linkName := if head.Some? then OpenFolder(head.value) else "";
    var oldLink := OpenFolder(target);
    if PlainName(oldLink) && oldLink != linkName && [oldLink] in target && target[[oldLink]].link then {oldLink} else {}
  }

  // ---------------------------------------------------------------- the tree, path by path

  predicate Topped(q: Path, names: set<Name>) {
    q != [] && q[0] in names
  }

  /** Where the blob at q comes from: nowhere, this mineral, or the old one. */
  function Source(head: Option<GitTree>, target: GitTree, never: Path -> bool, q: Path): Option<Blob> {
    if never(q) || Topped(q, Drop(head, target)) then None
    else if Topped(q, Keep(head)) then (if head.Some? && q in head.value then Some(head.value[q]) else None)
    else if q in target then Some(target[q]) else None
  }

  function Lookup(t: GitTree, q: Path): Option<Blob> {
    if q in t then Some(t[q]) else None
  }

  /** Is t the restored tree? */
  ghost predicate IsRestored(t: GitTree, head: Option<GitTree>, target: GitTree, never: Path -> bool) {
    forall q :: Lookup(t, q) == Source(head, target, never, q)
  }

  /** restoredCommit: read the old tree into an index, take this mineral's paths out of it and put
      its own versions in, then take out the never-commit paths and the old folder link. */
  method RestoredCommit(head: Option<Commit>, target: Commit, never: Path -> bool) returns (c: Commit)
    ensures IsRestored(c.tree, if head.Some? then Some(head.value.tree) else None, target.tree, never)
    ensures c.parents == if head.Some? then [head.value, target] else [target]
  {
    var ownTree := if head.Some? then Some(head.value.tree) else None;
    var keep := Keep(ownTree);
    var drop := Drop(ownTree, target.tree);
    var index := target.tree;
    index := map q | q in index && !Topped(q, keep) :: index[q];
    if head.Some? {
      var ours := map q | q in head.value.tree && Topped(q, keep) :: head.value.tree[q];
      index := index + ours;
    }
    index := map q | q in index && !never(q) && !Topped(q, drop) :: index[q];
    c := Commit(index, if head.Some? then [head.value, target] else [target]);
  }

  // ---------------------------------------------------------------- three laws of the restored tree

  /** /^[a-z0-9][a-z0-9-]{0,39}$/ */
  predicate FolderName(s: string) {
    && 1 <= |s| <= 40 && ('a' <= s[0] <= 'z' || '0' <= s[0] <= '9')
    && forall i | 0 < i < |s| :: 'a' <= s[i] <= 'z' || '0' <= s[i] <= '9' || s[i] == '-'
  }

  /** The path is, or lies under, the folder the app opens on a mineral with this tree. */
  predicate UnderOwnLink(t: Option<GitTree>, q: Path) {
    t.Some? && ["open-folder"] in t.value && q != []
    && q[0] == Trim(t.value[["open-folder"]].text) && FolderName(q[0])
  }

  /** Or under one of the paths every mineral keeps. */
  predicate KeptHere(head: Option<GitTree>, q: Path) {
    q != [] && (q[0] in {"devices", "support", "box-name", "open-folder", "ownership.json"} || UnderOwnLink(head, q))
  }

  /** The path is, or lies under, the old mineral's folder link, and that is not this mineral's. */
  predicate UnderOldLink(head: Option<GitTree>, target: GitTree, q: Path) {
    UnderOwnLink(Some(target), q) && [q[0]] in target && target[[q[0]]].link && !UnderOwnLink(head, q)
  }

  lemma FolderNames(s: string)
    ensures PlainName(s) <==> FolderName(s)
  {
  }

  /** Never-commit paths and the old link are absent. What this mineral keeps is its own version or
      absent. Every other path is there exactly when the old tree has it, with the old blob. */
  lemma RestoredPathByPath(t: GitTree, head: Option<GitTree>, target: GitTree, never: Path -> bool, q: Path)
    requires IsRestored(t, head, target, never)
    ensures if never(q) || UnderOldLink(head, target, q) then q !in t
            else if KeptHere(head, q)
            then (q in t <==> head.Some? && q in head.value) && (q in t ==> t[q] == head.value[q])
            else (q in t <==> q in target) && (q in t ==> t[q] == target[q])
  {
    assert Lookup(t, q) == Source(head, target, never, q);
    if q != [] {
      FolderNames(q[0]);
    }
  }

  lemma SameTree(a: GitTree, b: GitTree)
    requires forall q :: Lookup(a, q) == Lookup(b, q)
    ensures a == b
  {
    assert forall q :: q in a <==> Lookup(a, q).Some?;
    assert forall q :: q in b <==> Lookup(b, q).Some?;
    assert a.Keys == b.Keys;
  }

  /** What this mineral keeps is its own, exactly where neither the never-commit list nor the old
      mineral's folder link reaches. */
  lemma KeptPathsStay(t: GitTree, head: GitTree, target: GitTree, never: Path -> bool, q: Path)
    requires IsRestored(t, Some(head), target, never) && Topped(q, Keep(Some(head))) && q in head
    ensures q in t && t[q] == head[q] <==> !never(q) && !Topped(q, Drop(Some(head), target))
  {
    assert Lookup(t, q) == Source(Some(head), target, never, q);
  }

  /** The old link can name a kept path only when the old tree has a link where a mineral keeps its
      door or its name. */
  lemma DropSparesTheDoor(head: Option<GitTree>, target: GitTree)
    requires forall n :: n in KEEP_TRACKED && [n] in target ==> !target[[n]].link
    ensures Drop(head, target) !! Keep(head)
  {
  }

  /** A path this mineral keeps and has, that the restored tree is without. */
  predicate LosesKept(head: GitTree, target: GitTree, q: Path) {
    Topped(q, KEEP_TRACKED) && q in head && Source(Some(head), target, _ => false, q) == None
  }

  /** It can happen: an old mineral whose open-folder reads "devices", with a link of that name,
      takes this mineral's own device roster out of the restored tree. */
  lemma DoorCanBeDropped()
    ensures exists head: GitTree, target: GitTree, q: Path :: LosesKept(head, target, q)
  {
    var roster: Path := ["devices", "roster"];
    var head: GitTree := map[roster := Blob(false, "")];
    var target: GitTree := map[OPEN_FOLDER := Blob(false, "devices"), ["devices"] := Blob(true, ".")];
    assert OPEN_FOLDER != ["devices"] && Trim("devices") == "devices";
    assert target[OPEN_FOLDER].text == "devices" && OpenFolder(target) == "devices";
    assert PlainName("devices");
    assert "devices" in Drop(Some(head), target);
    assert LosesKept(head, target, roster);
  }

  /** Restoring again onto the result changes nothing. */
  lemma RestoringAgain(t: GitTree, again: GitTree, head: Option<GitTree>, target: GitTree, never: Path -> bool)
    requires IsRestored(t, head, target, never) && IsRestored(again, Some(t), target, never)
    requires !never(OPEN_FOLDER) && "open-folder" !in Drop(head, target)
    ensures again == t
  {
    assert Lookup(t, OPEN_FOLDER) == Source(head, target, never, OPEN_FOLDER);
    assert OpenFolder(t) == if head.Some? then OpenFolder(head.value) else "";
    forall q
      ensures Lookup(again, q) == Lookup(t, q)
    {
      assert Lookup(t, q) == Source(head, target, never, q);
      assert Lookup(again, q) == Source(Some(t), target, never, q);
    }
    SameTree(again, t);
  }

  // ---------------------------------------------------------------- history

  ghost predicate Reaches(c: Commit, a: Commit) {
    a == c || exists i :: 0 <= i < |c.parents| && Reaches(c.parents[i], a)
  }

  /** Both histories live on: whatever this mineral's or the old one's latest commit reached, the
      restored commit reaches, so moving on to it is a fast-forward. */
  lemma NothingIsLost(head: Commit, target: Commit, c: Commit, a: Commit)
    requires c.parents == [head, target] && (Reaches(head, a) || Reaches(target, a))
    ensures Reaches(c, a)
  {
    assert c.parents[0] == head && c.parents[1] == target;
  }
}
