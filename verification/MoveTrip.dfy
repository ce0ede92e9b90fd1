/** A pack from end to end: made, read, written into an empty folder, and made again there. */
module MoveTrip {
  import opened Bytes
  import opened FileTree
  import opened PathText
  import opened PathOrder
  import opened MovePack
  import Listing

  /** Files that a pack can hold, each once. */
  ghost predicate Carriable(t: Tree, files: seq<Path>) {
    && Folder(t)
    && (forall q :: q in files ==> q in t && t[q].File? && SafePath(q))
    && (forall i, j :: 0 <= i < j < |files| ==> files[i] != files[j])
  }

  /** Everything packed is read, at its own path and with its own bytes, and nothing collides. */
  lemma PackIsRead(t: Tree, files: seq<Path>)
    requires Carriable(t, files)
    ensures var items := ItemsOf(PackedAll(t, files));
      && Readable(PackedAll(t, files)) && |items| == |files|
      && (forall i :: 0 <= i < |files| ==>
            files[i] in files && items[i] == Item(files[i], t[files[i]].mode & 0x1FF, t[files[i]].bytes))
      && (forall i :: 0 <= i < |files| ==> items[i].path != [])
      && Apart(items)
  {
    var items := ItemsOf(PackedAll(t, files));
    forall i | 0 <= i < |files|
      ensures SafeRel(PackedAll(t, files)[i].path).Some? && files[i] in files
      ensures items[i] == Item(files[i], t[files[i]].mode & 0x1FF, t[files[i]].bytes)
    {
      ReadPacked(t, files[i]);
    }
    forall i, j | 0 <= i < |items| && 0 <= j < |items|
      ensures !(items[i].path < items[j].path)
    {
      NothingBelow(t, files[i]);
    }
  }

  /** b holds exactly the wanted files of t, bytes identical, owner bits only, and nothing else but
      the private folders they lie in. */
  ghost predicate Rebuilds(b: Tree, t: Tree, wanted: set<Path>) {
    && PlainFolder(b)
    && (forall q :: q in wanted ==> q in t && t[q].File? && q in b)
    && (forall q :: q in wanted ==> b[q] == File(KeepMode(t[q].mode & 0x1FF), t[q].bytes))
    && (forall q :: q in b && b[q] != Dir(OWNER) ==> q in wanted)
    && (forall q :: q in b && q != [] && b[q].Dir? ==> exists w :: w in wanted && q <= w)
  }

  /** A pack is read and can be written into an empty folder, which rebuilds exactly its files. */
  lemma PackRebuilds(t: Tree, files: seq<Path>, wanted: set<Path>)
    requires Carriable(t, files) && Listing.Lists(files, wanted)
    ensures Readable(PackedAll(t, files))
    ensures var items := ItemsOf(PackedAll(t, files));
      PutAll(EMPTY, items).Some? && Rebuilds(PutAll(EMPTY, items).value, t, wanted)
  {
    var items := ItemsOf(PackedAll(t, files));
    PackIsRead(t, files);
    WrittenFolder(items);
    HeldIsRebuilt(t, files, items, PutAll(EMPTY, items).value, wanted);
  }

  /** What is packed of a folder is every safe regular file under the requests that is not
      skipped, so no link and nothing never carried. */
  lemma ContentsCarriable(t: Tree, requests: seq<string>, skip: string -> bool)
    requires Folder(t)
    ensures Carriable(t, Contents(t, requests, skip))
    ensures Listing.Lists(Contents(t, requests, skip), Wanted(t, requests, skip))
  {
  }

  lemma HeldIsRebuilt(t: Tree, files: seq<Path>, items: seq<Item>, b: Tree, wanted: set<Path>)
    requires Listing.Lists(files, wanted) && forall q :: q in wanted ==> q in t && t[q].File?
    requires |items| == |files| && PlainFolder(b) && Holds(b, items, |items|)
    requires forall i :: 0 <= i < |files| ==>
      files[i] in wanted && items[i] == Item(files[i], t[files[i]].mode & 0x1FF, t[files[i]].bytes)
    ensures Rebuilds(b, t, wanted)
  {
    forall q | q in wanted
      ensures q in b && b[q] == File(KeepMode(t[q].mode & 0x1FF), t[q].bytes)
    {
      var i :| 0 <= i < |files| && files[i] == q;
      assert Stands(items, |items|, i);
      assert Written(b, items[i]);
    }
    forall q | q in b
      ensures b[q] != Dir(OWNER) ==> q in wanted
      ensures q != [] ==> exists w :: w in wanted && q <= w
    {
      if b[q] != Dir(OWNER) {
        var i :| 0 <= i < |items| && q == items[i].path;
      }
      if q != [] {
        var i :| 0 <= i < |items| && q <= items[i].path;
        assert files[i] in wanted && q <= files[i];
      }
    }
  }

  lemma RebuiltFolder(t: Tree, b: Tree, wanted: set<Path>)
    requires Folder(t) && Rebuilds(b, t, wanted)
    ensures Folder(b)
  {
    forall q | q in b && q != []
      ensures AllOrdinary(q) && NoBackslash(q)
    {
      if b[q].Dir? {
        var w :| w in wanted && q <= w;
        PrefixOrdinary(q, w);
      }
    }
  }

  lemma PrefixOrdinary(q: Path, p: Path)
    requires q <= p && AllOrdinary(p) && NoBackslash(p)
    ensures AllOrdinary(q) && NoBackslash(q)
  {
    assert forall i :: 0 <= i < |q| ==> q[i] == p[i];
  }

  // ---------------------------------------------------------------- packing again

  ghost function Skips(skip: string -> bool): Path -> bool {
    q => skip(Join(q))
  }

  /** Under a request the rebuilt folder has the files that were there and were not skipped. */
  lemma FilesAgain(t: Tree, requests: seq<string>, skip: string -> bool, b: Tree, request: string)
    requires Rebuilds(b, t, Wanted(t, requests, skip)) && request in requests && SafeRel(request).Some?
    ensures var p := SafeRel(request).value;
      FilesBelow(b, p) == set q | q in FilesBelow(t, p) && !Skips(skip)(q)
  {
    var p := SafeRel(request).value;
    forall q
      ensures q in FilesBelow(b, p) <==> q in FilesBelow(t, p) && !Skips(skip)(q)
    {
      FileAgain(t, requests, skip, b, request, p, q);
    }
  }

  lemma FileAgain(t: Tree, requests: seq<string>, skip: string -> bool, b: Tree, request: string, p: Path, q: Path)
    requires Rebuilds(b, t, Wanted(t, requests, skip)) && request in requests && SafeRel(request) == Some(p)
    ensures q in b && p <= q && b[q].File? && SafePath(q)
      <==> (q in t && p <= q && t[q].File? && SafePath(q) && !skip(Join(q)))
  {
    assert p <= q ==> Asks(request, q);
    assert q in b && b[q].File? ==> q in Wanted(t, requests, skip);
  }

  lemma WalkedAgain(t: Tree, requests: seq<string>, skip: string -> bool, b: Tree, request: string)
    requires Rebuilds(b, t, Wanted(t, requests, skip)) && request in requests
    ensures FoundBy(b, request) == Left(FoundBy(t, request), Skips(skip))
  {
    if SafeRel(request).Some? {
      var p := SafeRel(request).value;
      FilesAgain(t, requests, skip, b, request);
      LeftOrdered(Walked(t, p), FilesBelow(t, p), Skips(skip));
      OrderedUnique(Walked(b, p), Left(Walked(t, p), Skips(skip)), FilesBelow(b, p));
    }
  }

  lemma {:induction false} FoundAgain(t: Tree, requests: seq<string>, skip: string -> bool, b: Tree, n: nat)
    requires Rebuilds(b, t, Wanted(t, requests, skip)) && n <= |requests|
    ensures Found(b, requests[..n]) == Left(Found(t, requests[..n]), Skips(skip))
  {
    if n > 0 {
      assert requests[..n][..n - 1] == requests[..n - 1];
      FoundAgain(t, requests, skip, b, n - 1);
      WalkedAgain(t, requests, skip, b, requests[n - 1]);
      LeftConcat(Found(t, requests[..n - 1]), FoundBy(t, requests[n - 1]), Skips(skip));
    }
  }

  lemma ChosenMore(found: seq<Path>, q: Path, skip: string -> bool)
    ensures Chosen(found + [q], skip)
         == var c := Chosen(found, skip); if q in c || skip(Join(q)) then c else c + [q]
  {
    assert (found + [q])[..|found|] == found;
  }

  lemma {:induction false} ChosenLeft(found: seq<Path>, skip: string -> bool, skips: Path -> bool)
    requires forall q :: skips(q) <==> skip(Join(q))
    ensures Chosen(Left(found, skips), skip) == Chosen(found, skip)
  {
    if found == [] {
      assert Left(found, skips) == [];
    } else {
      var most, last := found[..|found| - 1], found[|found| - 1];
      assert most + [last] == found;
      ChosenLeft(most, skip, skips);
      LeftMore(most, last, skips);
      ChosenAlike(most, Left(most, skips), last, skip);
    }
  }

  lemma ChosenAlike(most: seq<Path>, left: seq<Path>, last: Path, skip: string -> bool)
    requires Chosen(left, skip) == Chosen(most, skip)
    ensures Chosen(if skip(Join(last)) then left else left + [last], skip) == Chosen(most + [last], skip)
  {
    ChosenMore(most, last, skip);
    ChosenMore(left, last, skip);
  }

  lemma LeftMore(most: seq<Path>, last: Path, skip: Path -> bool)
    ensures Left(most + [last], skip) == if skip(last) then Left(most, skip) else Left(most, skip) + [last]
  {
    assert (most + [last])[..|most|] == most;
    assert Left(most, skip) + [] == Left(most, skip);
  }

  /** The rebuilt folder is packed in the same order. */
  lemma ContentsAgain(t: Tree, requests: seq<string>, skip: string -> bool, b: Tree)
    requires Rebuilds(b, t, Wanted(t, requests, skip))
    ensures Contents(b, requests, skip) == Contents(t, requests, skip)
  {
    FoundAgain(t, requests, skip, b, |requests|);
    assert requests[..|requests|] == requests;
    ChosenLeft(Found(t, requests), skip, Skips(skip));
  }

  lemma {:induction false} SameWeight(t: Tree, u: Tree, files: seq<Path>)
    requires forall q :: q in files ==> q in t && t[q].File? && q in u && u[q].File? && |t[q].bytes| == |u[q].bytes|
    ensures Weight(t, files) == Weight(u, files)
  {
    if files != [] {
      assert files[|files| - 1] in files;
      SameWeight(t, u, files[..|files| - 1]);
    }
  }

  /** A pack with every mode as writing leaves it. */
  function Masked(files: seq<PackFile>): seq<PackFile> {
    seq(|files|, i requires 0 <= i < |files| => files[i].(mode := KeepMode(files[i].mode)))
  }

  lemma KeepModeOwner(m: Mode)
    ensures KeepMode(m) & 0x1FF == KeepMode(m) && KeepMode(m) & 0x3F == 0
  {
  }

  lemma PackedAgain(t: Tree, b: Tree, files: seq<Path>, wanted: set<Path>)
    requires Rebuilds(b, t, wanted) && forall q :: q in files ==> q in wanted
    ensures PackedAll(b, files) == Masked(PackedAll(t, files)) && Weight(b, files) == Weight(t, files)
  {
    SameWeight(t, b, files);
    forall i | 0 <= i < |files|
      ensures PackedAll(b, files)[i] == Masked(PackedAll(t, files))[i]
    {
      assert files[i] in files;
      KeepModeOwner(t[files[i]].mode & 0x1FF);
    }
  }

  /** Packing the rebuilt folder gives the same pack, entry by entry and in the same order, up to
      the mode mask; so it succeeds exactly when the first one did. */
  lemma PacksAlike(t: Tree, requests: seq<string>, skip: string -> bool, b: Tree)
    requires Rebuilds(b, t, Wanted(t, requests, skip))
    ensures Pack(b, requests, skip)
         == if Pack(t, requests, skip).Some? then Some(Masked(Pack(t, requests, skip).value)) else None
  {
    ContentsAgain(t, requests, skip, b);
    PackedAgain(t, b, Contents(t, requests, skip), Wanted(t, requests, skip));
  }

  lemma NothingAdded(t: Tree, requests: seq<string>, skip: string -> bool)
    ensures PackWith(t, requests, skip, []) == Pack(t, requests, skip)
  {
    if Pack(t, requests, skip).Some? {
      assert Pack(t, requests, skip).value + AddedAll([]) == Pack(t, requests, skip).value;
    }
  }

  /** The whole trip: a pack that could be made is read and written without fail, the folder holds
      exactly the wanted files, and packing that gives the pack again. */
  method Travel(t: Tree, requests: seq<string>, skip: string -> bool)
    returns (pack: Option<seq<PackFile>>, rebuilt: Tree, again: Option<seq<PackFile>>)
    requires Folder(t)
    ensures pack.Some? <==> Weight(t, Contents(t, requests, skip)) <= 20_971_520
    ensures pack.Some? ==> Rebuilds(rebuilt, t, Wanted(t, requests, skip)) && again == Some(Masked(pack.value))
  {
    rebuilt, again := EMPTY, None;
    pack := PackPaths(t, requests, skip, []);
    NothingAdded(t, requests, skip);
    if pack.Some? {
      ghost var files, wanted := Contents(t, requests, skip), Wanted(t, requests, skip);
      ContentsCarriable(t, requests, skip);
      PackRebuilds(t, files, wanted);
      var unpacked := Unpack(pack.value);
      rebuilt := unpacked.value;
      RebuiltFolder(t, rebuilt, wanted);
      again := PackPaths(rebuilt, requests, skip, []);
      NothingAdded(rebuilt, requests, skip);
      PacksAlike(t, requests, skip, rebuilt);
    }
  }

  /** Read, then written into an empty folder. */
  method Unpack(pack: seq<PackFile>) returns (rebuilt: Option<Tree>)
    ensures rebuilt == if Readable(pack) then PutAll(EMPTY, ItemsOf(pack)) else None
  {
    var items := ReadPack(pack);
    if items.None? {
      return None;
    }
    SafePathsNotEmpty(items.value);
    var target := new Target();
    var ok := target.WritePack(items.value);
    rebuilt := if ok then Some(target.nodes) else None;
  }

  lemma SafePathsNotEmpty(items: seq<Item>)
    requires forall i :: 0 <= i < |items| ==> SafePath(items[i].path)
    ensures forall i :: 0 <= i < |items| ==> items[i].path != []
  {
  }
}
