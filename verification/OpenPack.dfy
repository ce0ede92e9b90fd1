/** A move pack in place of a snapshot: openPack, and what a move brings across. */
module OpenPack {
  import opened Bytes
  import opened Text
  import opened FileTree
  import opened PathText
  import opened MovePack
  import Listing
  import Restore
  import OpenSnapshot
  import MoveTrip

  // ---------------------------------------------------------------- two sets of checks

  /** Reading backslashes as slashes splits more, and moves no segment that has none. */
  lemma {:induction false} SlashedSegments(s: string, x: string)
    requires '\\' !in x
    ensures x == Split(s)[0] ==> x == Split(Slashed(s))[0]
    ensures x in Split(s)[1..] ==> x in Split(Slashed(s))[1..]
  {
    if s != "" {
      var c, rest := s[0], s[1..];
      assert Slashed(s)[1..] == Slashed(rest);
      SlashedSegments(rest, x);
      if c == '/' {
        assert Split(s)[1..] == Split(rest);
        assert Split(Slashed(s))[1..] == Split(Slashed(rest));
        HeadOrTail(Split(rest), x);
        HeadOrTail(Split(Slashed(rest)), x);
      } else if c == '\\' {
        assert Split(s)[0][0] == c;
        assert Split(Slashed(s))[1..] == Split(Slashed(rest));
        HeadOrTail(Split(Slashed(rest)), x);
      } else if x == Split(s)[0] {
        assert x == [c] + Split(rest)[0];
        SlashedSegments(rest, Split(rest)[0]);
      }
    }
  }

  lemma HeadOrTail(parts: seq<string>, x: string)
    requires parts != []
    ensures x in parts <==> x == parts[0] || x in parts[1..]
  {
    assert parts == [parts[0]] + parts[1..];
  }

  lemma {:induction false} SplitSlashAtEnd(s: string)
    ensures Split(s + "/") == Split(s) + [""]
  {
    if s == "" {
      assert "" + "/" == "/" && "/"[1..] == "";
    } else {
      SplitSlashAtEnd(s[1..]);
      assert (s + "/")[1..] == s[1..] + "/";
    }
  }

  /** Slashes off the end take only empty segments off the end. */
  lemma {:induction false} TrimmedSegments(s: string)
    ensures Split(TrimSlashes(s)) <= Split(s)
    ensures forall x :: x in Split(s) && x != "" ==> x in Split(TrimSlashes(s))
  {
    if s != "" && s[|s| - 1] == '/' {
      var most := s[..|s| - 1];
      assert s == most + "/";
      SplitSlashAtEnd(most);
      TrimmedSegments(most);
    }
  }

  lemma {:induction false} TrimKeeps(s: string, i: nat)
    requires i < |s| && s[i] != '/'
    ensures i < |TrimSlashes(s)|
  {
    if s[|s| - 1] == '/' {
      TrimKeeps(s[..|s| - 1], i);
    }
  }

  /** An entry without the leading dot that normalising takes off. */
  function Undotted(raw: string): string {
    if StartsWith(raw, ".\\") then raw[2..] else DropDot(raw)
  }

  lemma NormIs(raw: string)
    ensures Norm(raw) == TrimSlashes(Slashed(Undotted(raw)))
  {
    var s := Slashed(raw);
    assert |raw| >= 2 ==> raw[..2] == [raw[0], raw[1]] && s[..2] == [s[0], s[1]] && s[2..] == Slashed(raw[2..]);
    assert StartsWith(s, "./") <==> StartsWith(raw, "./") || StartsWith(raw, ".\\");
  }

  lemma BackslashDot(raw: string)
    requires StartsWith(raw, ".\\")
    ensures DropDot(raw) == raw && |Split(raw)[0]| >= 2 && Split(raw)[0][1] == '\\'
    ensures Split(raw)[1..] == Split(raw[2..])[1..]
  {
    assert raw[1] == raw[..2][1] == '\\';
    assert raw[1..][0] == '\\' && raw[1..][1..] == raw[2..];
  }

  lemma NotAbsolute(raw: string)
    requires SafeRel(raw).Some?
    ensures DropDot(raw) != "" && DropDot(raw)[0] != '/' && !Drive(DropDot(raw))
  {
    var e, n := DropDot(raw), Norm(raw);
    NormIs(raw);
    TrimSlashesPrefix(Slashed(Undotted(raw)));
    if !StartsWith(raw, ".\\") && Drive(e) {
      TrimKeeps(Slashed(e), 1);
    }
  }

  lemma NoClimb(raw: string)
    requires SafeRel(raw).Some?
    ensures ".." !in Split(DropDot(raw))
  {
    var e := Undotted(raw);
    NormIs(raw);
    SlashedSegments(e, "..");
    HeadOrTail(Split(e), "..");
    HeadOrTail(Split(Slashed(e)), "..");
    TrimmedSegments(Slashed(e));
    if StartsWith(raw, ".\\") {
      BackslashDot(raw);
      HeadOrTail(Split(raw), "..");
    }
  }

  lemma FirstKept(raw: string)
    requires SafeRel(raw).Some?
    ensures var first := Split(DropDot(raw))[0]; '\\' in first || first == Split(Norm(raw))[0]
  {
    var e := DropDot(raw);
    NormIs(raw);
    if StartsWith(raw, ".\\") {
      BackslashDot(raw);
    } else if '\\' !in Split(e)[0] {
      SlashedSegments(e, Split(e)[0]);
      TrimmedSegments(Slashed(e));
    }
  }

  /** What a snapshot may never write, a pack may never hold. */
  lemma DoorIsNever(p: Path)
    ensures p == [] || p[0] !in Restore.NEVER_FROM_SNAPSHOT || IsNever(p)
    ensures forall n :: n in Restore.NEVER_FROM_SNAPSHOT ==> '\\' !in n
  {
    if p != [] && p[0] in Restore.NEVER_FROM_SNAPSHOT {
      assert [p[0]] in NEVER && [p[0]] <= p;
    }
  }

  lemma NoDoor(raw: string)
    requires SafeRel(raw).Some?
    ensures Split(DropDot(raw))[0] !in Restore.NEVER_FROM_SNAPSHOT
  {
    FirstKept(raw);
    DoorIsNever(Split(Norm(raw)));
  }

  /** What safeRel accepts, checkEntries accepts: no readable pack but an empty one fails the
      checks a snapshot's listing goes through. */
  lemma SafeEntryAccepted(raw: string)
    requires SafeRel(raw).Some?
    ensures OpenSnapshot.Judge(raw).Top?
  {
    NotAbsolute(raw);
    NoClimb(raw);
    NoDoor(raw);
  }

  function Listed(files: seq<PackFile>): seq<string> {
    seq(|files|, i requires 0 <= i < |files| => files[i].path)
  }

  /** A readable pack's listing is accepted exactly when it lists anything. */
  lemma PackListing(files: seq<PackFile>)
    requires Readable(files)
    ensures OpenSnapshot.Accepted(Listed(files)) <==> files != []
  {
    forall i | 0 <= i < |files|
      ensures OpenSnapshot.Judge(Listed(files)[i]).Top?
    {
      SafeEntryAccepted(files[i].path);
    }
    if files != [] {
      assert Listed(files)[0] in Listed(files);
    }
  }

  /** What a pack opens to: a readable one that lists anything and whose entries do not collide. */
  function OpenedPack(files: seq<PackFile>): OpenSnapshot.Opened {
    if files == [] || !Readable(files) then OpenSnapshot.Closed
    else match PutAll(EMPTY, ItemsOf(files))
      case Some(t) => OpenSnapshot.Open(t)
      case None => OpenSnapshot.Closed
  }

  lemma ItemsAreSafe(files: seq<PackFile>)
    requires Readable(files)
    ensures forall i :: 0 <= i < |files| ==> ItemsOf(files)[i].path != []
  {
    forall i | 0 <= i < |files|
      ensures ItemsOf(files)[i].path != []
    {
      SafeRelIsSafe(files[i].path);
    }
  }

  /** A pack opens exactly when it is readable, lists something, and no entry lies under another;
      and then it unpacks to its entries and nothing else. */
  lemma OpensTo(files: seq<PackFile>)
    ensures OpenedPack(files).Open? <==> files != [] && Readable(files) && Apart(ItemsOf(files))
    ensures OpenedPack(files).Open? ==>
      Restore.Restorable(OpenedPack(files).unpacked) && Holds(OpenedPack(files).unpacked, ItemsOf(files), |files|)
  {
    if Readable(files) {
      ItemsAreSafe(files);
      WrittenFolder(ItemsOf(files));
    }
  }

  /** openPack: read, check the listing as a snapshot's is checked, write into the staging folder. */
  method Open(files: seq<PackFile>) returns (o: OpenSnapshot.Opened)
    ensures o == OpenedPack(files)
  {
    var items := ReadPack(files);
    if items.None? {
      return OpenSnapshot.Closed;
    }
    PackListing(files);
    var tops := OpenSnapshot.CheckEntries(Listed(files));
    if tops.None? {
      return OpenSnapshot.Closed;
    }
    ItemsAreSafe(files);
    var target := new Target();
    var written := target.WritePack(items.value);
    o := if written then OpenSnapshot.Open(target.nodes) else OpenSnapshot.Closed;
  }

  // ---------------------------------------------------------------- a whole move

  /** Every item that no later one replaces has come across, and nothing else but their folders. */
  ghost predicate Came(items: seq<Item>, before: Tree, after: Tree) {
    && (forall i: nat :: Stands(items, |items|, i) ==> Written(after, items[i]))
    && (forall q :: q in after && q !in before ==> after[q] == Dir(OWNER) || HasPath(items, q))
  }

  ghost predicate HasPath(items: seq<Item>, q: Path) {
    exists i :: 0 <= i < |items| && items[i].path == q
  }

  /** What was unpacked and is then laid over a mineral. */
  lemma LaidArrives(items: seq<Item>, b: Tree, mineral: Tree)
    requires WellFormed(b) && Holds(b, items, |items|) && forall i :: 0 <= i < |items| ==> SafePath(items[i].path)
    ensures Came(items, mineral, Restore.Applied(mineral, b))
  {
    var after := Restore.Applied(mineral, b);
    forall i: nat | Stands(items, |items|, i)
      ensures Written(after, items[i])
    {
      assert Written(b, items[i]) && SafePath(items[i].path);
      DoorIsNever(items[i].path);
      Restore.WhatIsLaid(mineral, b, items[i].path);
      KeptIsTight(items[i].mode);
    }
    forall q | q in after && q !in mineral
      ensures after[q] == Dir(OWNER) || HasPath(items, q)
    {
      Restore.NothingElse(mineral, b, q);
      OwnerIsTight();
    }
  }

  lemma KeptIsTight(m: Mode)
    ensures KeepMode(m) & OWNER == KeepMode(m)
  {
  }

  lemma OwnerIsTight()
    ensures Restore.Tight(Dir(OWNER)) == Dir(OWNER)
  {
  }

  /** A pack that could be made of anything at all opens, and rebuilds what was wanted. */
  lemma PackOpens(t: Tree, requests: seq<string>, skip: string -> bool)
    requires Folder(t)
    ensures var files, wanted := Contents(t, requests, skip), Wanted(t, requests, skip);
      && (forall q :: q in wanted ==> SafePath(q))
      && (files == [] <==> wanted == {})
      && (files != [] ==> OpenedPack(PackedAll(t, files)).Open?
                          && MoveTrip.Rebuilds(OpenedPack(PackedAll(t, files)).unpacked, t, wanted))
  {
    var files, wanted := Contents(t, requests, skip), Wanted(t, requests, skip);
    MoveTrip.ContentsCarriable(t, requests, skip);
    FilesOpen(t, files, wanted);
  }

  lemma FilesOpen(t: Tree, files: seq<Path>, wanted: set<Path>)
    requires MoveTrip.Carriable(t, files) && Listing.Lists(files, wanted)
    ensures files == [] <==> wanted == {}
    ensures files != [] ==> OpenedPack(PackedAll(t, files)).Open?
                            && MoveTrip.Rebuilds(OpenedPack(PackedAll(t, files)).unpacked, t, wanted)
  {
    MoveTrip.PackRebuilds(t, files, wanted);
    Listing.ListsNothing(files, wanted);
  }

  /** What a move carries: each wanted file where it is first found, then the added entries. */
  ghost function Carried(t: Tree, requests: seq<string>, skip: string -> bool, extra: seq<Extra>): seq<Item> {
    FoundItems(t, Contents(t, requests, skip)) + AddedItems(extra)
  }

  function FoundItems(t: Tree, files: seq<Path>): seq<Item>
    requires forall q :: q in files ==> q in t && t[q].File?
  {
    seq(|files|, i requires 0 <= i < |files| => Item(files[i], t[files[i]].mode & 0x1FF, t[files[i]].bytes))
  }

  function AddedItems(extra: seq<Extra>): seq<Item> {
    seq(|extra|, i requires 0 <= i < |extra| => AddedItem(extra[i]))
  }

  /** It is what the pack reads as. */
  lemma CarriedRead(t: Tree, requests: seq<string>, skip: string -> bool, extra: seq<Extra>)
    requires Folder(t) && SafeExtras(extra)
    ensures var files := PackedAll(t, Contents(t, requests, skip)) + AddedAll(extra);
      Readable(files) && ItemsOf(files) == Carried(t, requests, skip, extra)
  {
    var found := Contents(t, requests, skip);
    MoveTrip.ContentsCarriable(t, requests, skip);
    FoundRead(t, found);
    ExtrasRead(extra);
    ReadConcat(PackedAll(t, found), AddedAll(extra));
  }

  lemma FoundRead(t: Tree, found: seq<Path>)
    requires MoveTrip.Carriable(t, found)
    ensures Readable(PackedAll(t, found)) && ItemsOf(PackedAll(t, found)) == FoundItems(t, found)
  {
    MoveTrip.PackIsRead(t, found);
  }

  lemma ExtrasRead(extra: seq<Extra>)
    requires SafeExtras(extra)
    ensures Readable(AddedAll(extra)) && ItemsOf(AddedAll(extra)) == AddedItems(extra)
  {
    forall i | 0 <= i < |extra|
      ensures SafeRel(AddedAll(extra)[i].path).Some? && ItemsOf(AddedAll(extra))[i] == AddedItem(extra[i])
    {
      AddedRead(extra[i]);
    }
  }

  lemma ReadConcat(a: seq<PackFile>, b: seq<PackFile>)
    ensures ItemsOf(a + b) == ItemsOf(a) + ItemsOf(b)
    ensures Readable(a) && Readable(b) ==> Readable(a + b)
  {
  }

  /** The path of an added entry. */
  function AddedPath(e: Extra): Path {
    AddedItem(e).path
  }

  /** Some entry from the k-th on is for this path. */
  ghost predicate AddedFrom(extra: seq<Extra>, k: nat, q: Path) {
    exists j :: k <= j < |extra| && AddedPath(extra[j]) == q
  }

  /** Every added entry that no later one replaces has come across, every wanted file that none
      replaces has come across, bytes identical, owner bits only; and nothing is there that was
      neither wanted, added nor the mineral's own, but the folders they lie in. */
  ghost predicate Arrived(t: Tree, wanted: set<Path>, extra: seq<Extra>, before: Tree, after: Tree) {
    && (forall q :: q in wanted ==> q in t && t[q].File?)
    && (forall q :: q in wanted && !AddedFrom(extra, 0, q) ==>
          q in after && after[q] == File(KeepMode(t[q].mode & 0x1FF), t[q].bytes))
    && (forall k: nat :: k < |extra| && !AddedFrom(extra, k + 1, AddedPath(extra[k])) ==>
          Written(after, AddedItem(extra[k])))
    && (forall q :: q in after && q !in before ==> after[q] == Dir(OWNER) || q in wanted || AddedFrom(extra, 0, q))
  }

  lemma FoundStands(t: Tree, files: seq<Path>, extra: seq<Extra>, i: nat)
    requires forall q :: q in files ==> q in t && t[q].File?
    requires i < |files| && (forall j :: i < j < |files| ==> files[i] != files[j]) && !AddedFrom(extra, 0, files[i])
    ensures var items := FoundItems(t, files) + AddedItems(extra); Stands(items, |items|, i)
  {
    var items := FoundItems(t, files) + AddedItems(extra);
    forall j | i < j < |items|
      ensures items[j].path != items[i].path
    {
      assert j >= |files| ==> items[j].path == AddedPath(extra[j - |files|]);
    }
  }

  lemma AddedStands(found: seq<Item>, extra: seq<Extra>, k: nat)
    requires k < |extra| && !AddedFrom(extra, k + 1, AddedPath(extra[k]))
    ensures var items := found + AddedItems(extra);
      Stands(items, |items|, |found| + k) && items[|found| + k] == AddedItem(extra[k])
  {
    var items := found + AddedItems(extra);
    forall j | |found| + k < j < |items|
      ensures items[j].path != items[|found| + k].path
    {
      assert items[j].path == AddedPath(extra[j - |found|]);
    }
  }

  lemma FoundCame(t: Tree, files: seq<Path>, extra: seq<Extra>, before: Tree, after: Tree, q: Path)
    requires forall r :: r in files ==> r in t && t[r].File?
    requires forall i, j :: 0 <= i < j < |files| ==> files[i] != files[j]
    requires Came(FoundItems(t, files) + AddedItems(extra), before, after)
    requires q in files && !AddedFrom(extra, 0, q)
    ensures q in after && after[q] == File(KeepMode(t[q].mode & 0x1FF), t[q].bytes)
  {
    var items := FoundItems(t, files) + AddedItems(extra);
    var i: nat :| i < |files| && files[i] == q;
    FoundStands(t, files, extra, i);
    assert Written(after, items[i]);
  }

  lemma AddedCame(found: seq<Item>, extra: seq<Extra>, before: Tree, after: Tree, k: nat)
    requires Came(found + AddedItems(extra), before, after)
    requires k < |extra| && !AddedFrom(extra, k + 1, AddedPath(extra[k]))
    ensures Written(after, AddedItem(extra[k]))
  {
    var items := found + AddedItems(extra);
    AddedStands(found, extra, k);
    assert Written(after, items[|found| + k]);
  }

  lemma PathOfEither(a: seq<Item>, b: seq<Item>, q: Path)
    requires HasPath(a + b, q)
    ensures HasPath(a, q) || HasPath(b, q)
  {
    var i :| 0 <= i < |a + b| && (a + b)[i].path == q;
    if i < |a| {
      assert a[i].path == q;
    } else {
      assert b[i - |a|].path == q;
    }
  }

  lemma PathOfAdded(extra: seq<Extra>, q: Path)
    requires HasPath(AddedItems(extra), q)
    ensures AddedFrom(extra, 0, q)
  {
    var i :| 0 <= i < |extra| && AddedItems(extra)[i].path == q;
    assert AddedPath(extra[i]) == q;
  }

  lemma WhoseIs(t: Tree, files: seq<Path>, extra: seq<Extra>, q: Path)
    requires forall r :: r in files ==> r in t && t[r].File?
    requires HasPath(FoundItems(t, files) + AddedItems(extra), q)
    ensures q in files || AddedFrom(extra, 0, q)
  {
    PathOfEither(FoundItems(t, files), AddedItems(extra), q);
    if HasPath(FoundItems(t, files), q) {
      var i :| 0 <= i < |files| && FoundItems(t, files)[i].path == q;
      assert files[i] in files;
    } else {
      PathOfAdded(extra, q);
    }
  }

  lemma CameArrives(t: Tree, files: seq<Path>, wanted: set<Path>, extra: seq<Extra>, before: Tree, after: Tree)
    requires Listing.Lists(files, wanted) && forall q :: q in wanted ==> q in t && t[q].File?
    requires Came(FoundItems(t, files) + AddedItems(extra), before, after)
    ensures Arrived(t, wanted, extra, before, after)
  {
    forall q | q in wanted && !AddedFrom(extra, 0, q)
      ensures q in after && after[q] == File(KeepMode(t[q].mode & 0x1FF), t[q].bytes)
    {
      FoundCame(t, files, extra, before, after, q);
    }
    forall k: nat | k < |extra| && !AddedFrom(extra, k + 1, AddedPath(extra[k]))
      ensures Written(after, AddedItem(extra[k]))
    {
      AddedCame(FoundItems(t, files), extra, before, after, k);
    }
    forall q | q in after && q !in before
      ensures after[q] == Dir(OWNER) || q in wanted || AddedFrom(extra, 0, q)
    {
      if after[q] != Dir(OWNER) {
        WhoseIs(t, files, extra, q);
      }
    }
  }

  lemma CarriedSafe(t: Tree, requests: seq<string>, skip: string -> bool, extra: seq<Extra>)
    requires SafeExtras(extra)
    ensures forall i :: 0 <= i < |Carried(t, requests, skip, extra)| ==>
      SafePath(Carried(t, requests, skip, extra)[i].path)
  {
    var files := Contents(t, requests, skip);
    forall i | 0 <= i < |Carried(t, requests, skip, extra)|
      ensures SafePath(Carried(t, requests, skip, extra)[i].path)
    {
      if i < |files| {
        assert files[i] in files && files[i] in Wanted(t, requests, skip);
      } else {
        SafeRelIsSafe(extra[i - |files|].path);
      }
    }
  }

  /** Without added entries nothing collides: the move happens exactly when anything is wanted. */
  lemma FoundApart(t: Tree, requests: seq<string>, skip: string -> bool)
    requires Folder(t)
    ensures Apart(Carried(t, requests, skip, []))
    ensures Carried(t, requests, skip, []) == [] <==> Wanted(t, requests, skip) == {}
  {
    var files := Contents(t, requests, skip);
    MoveTrip.ContentsCarriable(t, requests, skip);
    MoveTrip.PackIsRead(t, files);
    assert AddedAll([]) == [] && PackedAll(t, files) + [] == PackedAll(t, files);
    CarriedRead(t, requests, skip, []);
    Listing.SomeElement(files);
  }

  /** The pack of a folder opens exactly when it carries something and nothing of it collides; and
      laid over a mineral, everything arrives. */
  lemma CarriedOpens(t: Tree, requests: seq<string>, skip: string -> bool, extra: seq<Extra>, mineral: Tree)
    requires Folder(t) && SafeExtras(extra)
    ensures var items := Carried(t, requests, skip, extra);
      var o := OpenedPack(PackedAll(t, Contents(t, requests, skip)) + AddedAll(extra));
      && (o.Open? <==> items != [] && Apart(items))
      && (o.Open? ==> Restore.Restorable(o.unpacked)
                      && Arrived(t, Wanted(t, requests, skip), extra, mineral, Restore.Applied(mineral, o.unpacked)))
  {
    var files := PackedAll(t, Contents(t, requests, skip)) + AddedAll(extra);
    CarriedRead(t, requests, skip, extra);
    CarriedSafe(t, requests, skip, extra);
    OpensTo(files);
    if OpenedPack(files).Open? {
      HeldArrives(t, requests, skip, extra, OpenedPack(files).unpacked, mineral);
    }
  }

  lemma HeldArrives(t: Tree, requests: seq<string>, skip: string -> bool, extra: seq<Extra>, b: Tree, mineral: Tree)
    requires WellFormed(b) && SafeExtras(extra)
    requires Holds(b, Carried(t, requests, skip, extra), |Carried(t, requests, skip, extra)|)
    ensures Arrived(t, Wanted(t, requests, skip), extra, mineral, Restore.Applied(mineral, b))
  {
    CarriedSafe(t, requests, skip, extra);
    LaidArrives(Carried(t, requests, skip, extra), b, mineral);
    var files, wanted := Contents(t, requests, skip), Wanted(t, requests, skip);
    CameArrives(t, files, wanted, extra, mineral, Restore.Applied(mineral, b));
  }

  /** A move from end to end: packed on one mineral, opened and laid over another. It happens
      exactly when what is found is not over the limit, the added entries are safe, there is
      something to carry and no path of it lies above another. */
  method Move(t: Tree, requests: seq<string>, skip: string -> bool, extra: seq<Extra>, mineral: Restore.Disk)
    returns (moved: bool)
    requires Folder(t) && WellFormed(mineral.nodes)
    modifies mineral
    ensures moved <==>
      && Weight(t, Contents(t, requests, skip)) <= 20_971_520 && SafeExtras(extra)
      && Carried(t, requests, skip, extra) != [] && Apart(Carried(t, requests, skip, extra))
    ensures moved ==> Arrived(t, Wanted(t, requests, skip), extra, old(mineral.nodes), mineral.nodes)
    ensures !moved ==> mineral.nodes == old(mineral.nodes)
  {
    var pack := PackPaths(t, requests, skip, extra);
    if pack.None? {
      return false;
    }
    CarriedOpens(t, requests, skip, extra, mineral.nodes);
    var opening := Open(pack.value);
    if opening.Closed? {
      return false;
    }
    var ok, _ := mineral.ApplySnapshot(opening.unpacked, false, {});
    return true;
  }
}
