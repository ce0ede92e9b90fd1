/** What travels beside the brain: packing a folder, reading a pack, writing it out again. */
module MovePack {
  import opened Bytes
  import opened Text
  import opened FileTree
  import opened PathText
  import opened PathOrder
  import Base64
  import Listing

  const PACK_MAX_BYTES: nat := 20 * 1024 * 1024

  /** Refused whatever asks for them, each with all beneath it. */
  const NEVER: set<Path> := {
    [".claude-auth"], [".opencode-auth"], [".kernel", "gh"], [".kernel", "move"], [".kernel", "brain-github-token"],
    [".git"], ["backups"], ["devices"], ["support"], ["ssh"], [".ssh"]
  }

  datatype PackFile = PackFile(path: string, mode: Mode, b64: string)

  // ---------------------------------------------------------------- paths a pack may hold

  function Slashed(s: string): string {
    seq(|s|, i requires 0 <= i < |s| => if s[i] == '\\' then '/' else s[i])
  }

  function Norm(s: string): string {
    TrimSlashes(DropDot(Slashed(s)))
  }

  predicate IsNever(p: Path) {
    exists n | n in NEVER :: n <= p
  }

  lemma NeverIs(p: Path)
    ensures p != []
            && p[0] in {".claude-auth", ".opencode-auth", ".git", "backups", "devices", "support", "ssh", ".ssh"}
            ==> IsNever(p)
    ensures |p| >= 2 && p[0] == ".kernel" && p[1] in {"gh", "move", "brain-github-token"} ==> IsNever(p)
    ensures IsNever(p) ==> p != [] && if p[0] == ".kernel" then |p| >= 2 && p[1] in {"gh", "move", "brain-github-token"}
      else p[0] in {".claude-auth", ".opencode-auth", ".git", "backups", "devices", "support", "ssh", ".ssh"}
  {
    if |p| >= 2 {
      assert [p[0]] <= p && [p[0], p[1]] <= p;
    } else if |p| == 1 {
      assert [p[0]] <= p;
    }
  }

  predicate SafePath(p: Path) {
    p != [] && AllOrdinary(p) && !Drive(p[0]) && !IsNever(p)
  }

  /** The segments of a path that safeRel accepts; None for what it refuses. */
  function SafeRel(rel: string): (p: Option<Path>) {
    var r := Norm(rel);
    if r == "" || r[0] == '/' || Drive(r) || !AllOrdinary(Split(r)) || IsNever(Split(r)) then None else Some(Split(r))
  }

  lemma {:induction false} SplitFirstIsPrefix(s: string)
    ensures Split(s)[0] <= s && (|Split(s)[0]| == |s| || s[|Split(s)[0]|] == '/')
  {
    if s != "" {
      SplitFirstIsPrefix(s[1..]);
      assert s == [s[0]] + s[1..];
    }
  }

  /** safeRel accepts only safe paths: relative, inside, never on the never list. */
  lemma SafeRelIsSafe(rel: string)
    ensures SafeRel(rel).Some? ==> SafePath(SafeRel(rel).value)
  {
    SplitFirstIsPrefix(Norm(rel));
  }

  /** No name holds a backslash, which a pack would read as a slash. */
  predicate NoBackslash(p: Path) {
    forall i | 0 <= i < |p| :: '\\' !in p[i]
  }

  lemma NormJoin(p: Path)
    requires p != [] && NoBackslash(p) && AllOrdinary(p)
    ensures Norm(Join(p)) == Join(p)
  {
    JoinShape(p);
    JoinStart(p);
    JoinNoBackslash(p);
    assert Slashed(Join(p)) == Join(p);
  }

  /** A safe path written out is the path safeRel reads. */
  lemma SafeRelJoin(p: Path)
    requires p != [] && NoBackslash(p) && AllOrdinary(p)
    ensures SafeRel(Join(p)) == if SafePath(p) then Some(p) else None
  {
    NormJoin(p);
    JoinStart(p);
    SplitJoin(p);
  }

  /** A normalised path holds no backslash, whatever it was made of. */
  lemma {:induction false} SplitNoBackslash(s: string)
    requires '\\' !in s
    ensures NoBackslash(Split(s))
  {
    if s != "" {
      assert s[0] in s && forall c :: c in s[1..] ==> c in s;
      SplitNoBackslash(s[1..]);
    }
  }

  lemma NormNoBackslash(s: string)
    ensures '\\' !in Norm(s)
  {
    TrimSlashesPrefix(DropDot(Slashed(s)));
  }

  /** Normalising what safeRel accepts, and asking again, gives the same path. */
  lemma NormAgain(s: string)
    requires SafeRel(s).Some?
    ensures SafeRel(Norm(s)) == SafeRel(s)
  {
    var p := Split(Norm(s));
    NormNoBackslash(s);
    SplitNoBackslash(Norm(s));
    JoinSplit(Norm(s));
    SafeRelIsSafe(s);
    SafeRelJoin(p);
  }

  lemma {:induction false} JoinNoBackslash(p: Path)
    requires NoBackslash(p)
    ensures '\\' !in Join(p)
  {
    if |p| > 1 {
      JoinNoBackslash(p[1..]);
    }
  }

  // ---------------------------------------------------------------- walking

  /** A tree as a file system holds it, no backslash in any name. */
  ghost predicate Folder(t: Tree) {
    WellFormed(t) && forall q :: q in t ==> AllOrdinary(q) && NoBackslash(q)
  }

  /** The regular files at or below p that a pack may hold. */
  ghost function FilesBelow(t: Tree, p: Path): set<Path> {
    set q | q in t && p <= q && t[q].File? && SafePath(q)
  }

  ghost function FilesUnder(t: Tree, dir: Path, names: set<Name>): set<Path> {
    set q | q in t && dir < q && q[|dir|] in names && t[q].File? && SafePath(q)
  }

  lemma FilesOfDir(t: Tree, dir: Path)
    requires WellFormed(t) && IsDir(t, dir)
    ensures FilesUnder(t, dir, Names(t, dir)) == FilesBelow(t, dir)
  {
    forall q | q in FilesBelow(t, dir)
      ensures q in FilesUnder(t, dir, Names(t, dir))
    {
      ProperPrefix(dir, q);
      ChildOnTheWay(t, dir, q);
    }
  }

  lemma OneMoreName(t: Tree, dir: Path, names: set<Name>, n: Name)
    requires n !in names
    ensures FilesUnder(t, dir, names + {n}) == FilesUnder(t, dir, names) + FilesBelow(t, dir + [n])
    ensures FilesUnder(t, dir, names) !! FilesBelow(t, dir + [n])
  {
    forall q
      ensures dir + [n] <= q <==> dir < q && q[|dir|] == n
    {
      assert dir < q ==> dir + [q[|dir|]] <= q;
    }
  }

  lemma FilesOfLeaf(t: Tree, p: Path)
    requires WellFormed(t) && !IsDir(t, p)
    ensures FilesBelow(t, p) == if p in t && t[p].File? && SafePath(p) then {p} else {}
  {
    NothingBelow(t, p);
    forall q | q in FilesBelow(t, p)
      ensures q == p
    {
      if q != p {
        ProperPrefix(p, q);
      }
    }
  }

  /** What walkFiles lists: the files, in the order of sorted listings. */
  ghost function Walked(t: Tree, p: Path): seq<Path> {
    Ordered(FilesBelow(t, p))
  }

  /** walkFiles: links are not followed and not packed. */
  method WalkFiles(t: Tree, p: Path) returns (out: seq<Path>)
    requires Folder(t) && p != []
    ensures out == Walked(t, p)
    ensures Listing.Lists(out, FilesBelow(t, p)) && InOrder(out)
    decreases Below(t, p)
  {
    if p !in t || !t[p].Dir? {
      out := LeafFile(t, p);
      return;
    }
    out := [];
    var names := Listing.Sorted(Names(t, p));
    ghost var done: set<Name> := {};
    Listing.FirstsAll(names, Names(t, p));
    for i := 0 to |names|
      invariant done == Listing.Firsts(names, i)
      invariant Listing.Lists(out, FilesUnder(t, p, done)) && InOrder(out)
    {
      Listing.FirstsMore(names, i);
      assert names[i] in Names(t, p);
      assert p in Below(t, p) && p !in Below(t, p + [names[i]]);
      assert Below(t, p + [names[i]]) < Below(t, p);
      var sub := WalkFiles(t, p + [names[i]]);
      WalkMore(t, p, names, i, out, sub);
      out, done := out + sub, done + {names[i]};
    }
    FilesOfDir(t, p);
    OrderedUnique(out, Walked(t, p), FilesBelow(t, p));
  }

  method LeafFile(t: Tree, p: Path) returns (out: seq<Path>)
    requires Folder(t) && p != [] && !IsDir(t, p)
    ensures out == Walked(t, p) && Listing.Lists(out, FilesBelow(t, p)) && InOrder(out)
  {
    out := [];
    FilesOfLeaf(t, p);
    if p in t {
      SafeRelJoin(p);
      if t[p].File? && SafeRel(Join(p)).Some? {
        out := [p];
      }
    }
    OrderedUnique(out, Walked(t, p), FilesBelow(t, p));
  }

  /** One more name of a sorted listing: its files come after those of the names before it. */
  lemma WalkMore(t: Tree, p: Path, names: seq<Name>, i: nat, out: seq<Path>, sub: seq<Path>)
    requires i < |names| && Listing.Ascending(names)
    requires Listing.Lists(out, FilesUnder(t, p, Listing.Firsts(names, i))) && InOrder(out)
    requires Listing.Lists(sub, FilesBelow(t, p + [names[i]])) && InOrder(sub)
    ensures Listing.Lists(out + sub, FilesUnder(t, p, Listing.Firsts(names, i + 1))) && InOrder(out + sub)
  {
    var done := Listing.Firsts(names, i);
    Listing.FirstsMore(names, i);
    OneMoreName(t, p, done, names[i]);
    Listing.ListsConcat(out, FilesUnder(t, p, done), sub, FilesBelow(t, p + [names[i]]));
    forall x, y | x in out && y in sub
      ensures PathLess(x, y)
    {
      assert p + [names[i]] <= y && p < y && y[|p|] == names[i];
      var k :| 0 <= k < i && names[k] == x[|p|];
      PathLessUnder(p, x, y);
    }
    InOrderConcat(out, sub);
  }

  // ---------------------------------------------------------------- packing

  /** The files a list of requests asks for, less those skipped. */
  ghost function Wanted(t: Tree, requests: seq<string>, skip: string -> bool): set<Path> {
    set q | q in t && t[q].File? && SafePath(q) && !skip(Join(q)) && Asked(requests, q)
  }

  /** A request for q, or for something above it. */
  predicate Asks(request: string, q: Path) {
    SafeRel(request).Some? && SafeRel(request).value <= q
  }

  ghost predicate Asked(requests: seq<string>, q: Path) {
    exists r :: r in requests && Asks(r, q)
  }

  /** A file that a pack may hold and the requests ask for. */
  ghost predicate Findable(t: Tree, requests: seq<string>, q: Path) {
    q in t && t[q].File? && SafePath(q) && Asked(requests, q)
  }

  /** What one request finds. */
  ghost function FoundBy(t: Tree, request: string): seq<Path> {
    var r := SafeRel(request);
    if r.Some? then Walked(t, r.value) else []
  }

  /** What all requests find, one after the other, repeats and all. */
  ghost function Found(t: Tree, requests: seq<string>): (found: seq<Path>)
    ensures forall q :: q in found <==> Findable(t, requests, q)
  {
    if requests == [] then [] else
    var n := |requests| - 1;
    FoundMore(t, requests, Found(t, requests[..n]));
    Found(t, requests[..n]) + FoundBy(t, requests[n])
  }

  lemma FoundMore(t: Tree, requests: seq<string>, found: seq<Path>)
    requires requests != [] && forall q :: q in found <==> Findable(t, requests[..|requests| - 1], q)
    ensures forall q :: q in found + FoundBy(t, requests[|requests| - 1]) <==> Findable(t, requests, q)
  {
    var n := |requests| - 1;
    forall q
      ensures q in found + FoundBy(t, requests[n]) <==> Findable(t, requests, q)
    {
      AskedOneMore(requests, q);
      FoundByIs(t, requests[n], q);
    }
  }

  lemma FoundByIs(t: Tree, request: string, q: Path)
    ensures q in FoundBy(t, request) <==> q in t && t[q].File? && SafePath(q) && Asks(request, q)
  {
    if SafeRel(request).Some? {
      assert q in FoundBy(t, request) <==> q in FilesBelow(t, SafeRel(request).value);
    }
  }

  lemma AskedOneMore(requests: seq<string>, q: Path)
    requires requests != []
    ensures Asked(requests, q) <==> Asked(requests[..|requests| - 1], q) || Asks(requests[|requests| - 1], q)
  {
    var n := |requests| - 1;
    assert requests == requests[..n] + [requests[n]];
    assert forall r :: r in requests <==> r in requests[..n] || r == requests[n];
  }

  /** The first loop of packPaths: every safe request, walked. */
  method Find(t: Tree, requests: seq<string>) returns (found: seq<Path>)
    requires Folder(t)
    ensures found == Found(t, requests)
  {
    found := [];
    for k := 0 to |requests|
      invariant found == Found(t, requests[..k])
    {
      assert requests[..k + 1][..k] == requests[..k];
      var r := SafeRel(requests[k]);
      if r.Some? {
        SafeRelIsSafe(requests[k]);
        var more := WalkFiles(t, r.value);
        found := found + more;
      } else {
        assert found + [] == found;
      }
    }
    assert requests[..|requests|] == requests;
  }

  /** What is packed of a found list: each file once, where it is first found. */
  function Chosen(found: seq<Path>, skip: string -> bool): (c: seq<Path>)
    ensures forall q :: q in c <==> q in found && !skip(Join(q))
    ensures forall i, j :: 0 <= i < j < |c| ==> c[i] != c[j]
  {
    if found == [] then [] else
    var c, q := Chosen(found[..|found| - 1], skip), found[|found| - 1];
    assert found == found[..|found| - 1] + [q];
    if q in c || skip(Join(q)) then c else c + [q]
  }

  function Weight(t: Tree, files: seq<Path>): nat
    requires forall q :: q in files ==> q in t && t[q].File?
  {
    if files == [] then 0 else
    var q := files[|files| - 1];
    assert q in files;
    Weight(t, files[..|files| - 1]) + |t[q].bytes|
  }

  /** The weight of files is the sum of their sizes. */
  lemma {:induction false} WeightAdds(t: Tree, a: seq<Path>, b: seq<Path>)
    requires forall q :: q in a + b ==> q in t && t[q].File?
    ensures (forall q :: q in a || q in b ==> q in a + b)
    ensures Weight(t, a + b) == Weight(t, a) + Weight(t, b)
    ensures |a| == 1 ==> Weight(t, a) == |t[a[0]].bytes|
    decreases |b|
  {
    assert forall q :: q in a || q in b ==> q in a + b;
    if |a| == 1 {
      assert Weight(t, []) == 0 && a[..0] == [];
    }
    if b == [] {
      assert a + b == a && Weight(t, []) == 0;
    } else {
      var n := |b| - 1;
      assert (a + b)[..|a + b| - 1] == a + b[..n];
      WeightAdds(t, a, b[..n]);
    }
  }

  function Packed(t: Tree, q: Path): PackFile
    requires q in t && t[q].File?
  {
    PackFile(Join(q), t[q].mode & 0x1FF, Base64.Encode(t[q].bytes))
  }

  function PackedAll(t: Tree, files: seq<Path>): seq<PackFile>
    requires forall q :: q in files ==> q in t && t[q].File?
  {
    seq(|files|, i requires 0 <= i < |files| => Packed(t, files[i]))
  }

  lemma {:induction false} WeightGrows(t: Tree, files: seq<Path>, k: nat)
    requires k <= |files| && forall q :: q in files ==> q in t && t[q].File?
    ensures Weight(t, files[..k]) <= Weight(t, files)
    decreases |files|
  {
    if k < |files| {
      assert files[..|files| - 1][..k] == files[..k];
      WeightGrows(t, files[..|files| - 1], k);
    } else {
      assert files[..k] == files;
    }
  }

  lemma {:induction false} ChosenGrows(found: seq<Path>, skip: string -> bool, k: nat)
    requires k <= |found|
    ensures Chosen(found[..k], skip) <= Chosen(found, skip)
    decreases |found|
  {
    if k < |found| {
      assert found[..|found| - 1][..k] == found[..k];
      ChosenGrows(found[..|found| - 1], skip, k);
    } else {
      assert found[..k] == found;
    }
  }

  /** One turn of the second loop. */
  lemma OneFound(t: Tree, found: seq<Path>, skip: string -> bool, i: nat)
    requires i < |found| && forall q :: q in found ==> q in t && t[q].File?
    ensures var c := Chosen(found[..i], skip);
      var d := Chosen(found[..i + 1], skip);
      && Weight(t, d) <= Weight(t, Chosen(found, skip))
      && (found[i] in c || skip(Join(found[i])) ==> d == c)
      && (!(found[i] in c || skip(Join(found[i]))) ==>
            d == c + [found[i]] && Weight(t, d) == Weight(t, c) + |t[found[i]].bytes|
            && PackedAll(t, d) == PackedAll(t, c) + [Packed(t, found[i])])
  {
    assert found[..i + 1][..i] == found[..i];
    ChosenGrows(found, skip, i + 1);
    var c, d, all := Chosen(found[..i], skip), Chosen(found[..i + 1], skip), Chosen(found, skip);
    OneMorePacked(t, c, found[i]);
    assert d == all[..|d|];
    WeightGrows(t, all, |d|);
  }

  lemma OneMorePacked(t: Tree, files: seq<Path>, q: Path)
    requires forall r :: r in files + [q] ==> r in t && t[r].File?
    ensures forall r :: r in files ==> r in files + [q]
    ensures Weight(t, files + [q]) == Weight(t, files) + |t[q].bytes|
    ensures PackedAll(t, files + [q]) == PackedAll(t, files) + [Packed(t, q)]
  {
    assert forall r :: r in files ==> r in files + [q];
    assert (files + [q])[..|files|] == files;
    assert (files + [q])[|files|] == q;
  }

  /** The files of a pack, in the order they are packed: each where it is first found. */
  ghost function Contents(t: Tree, requests: seq<string>, skip: string -> bool): (files: seq<Path>)
    ensures Listing.Lists(files, Wanted(t, requests, skip))
  {
    Chosen(Found(t, requests), skip)
  }

  /** The pack of a folder: None when what is wanted is over the limit. */
  ghost function Pack(t: Tree, requests: seq<string>, skip: string -> bool): Option<seq<PackFile>> {
    var files := Contents(t, requests, skip);
    if Weight(t, files) <= PACK_MAX_BYTES then Some(PackedAll(t, files)) else None
  }

  /** An entry that a caller adds beside the files found, its data as bytes. */
  datatype Extra = Extra(path: string, mode: Option<Mode>, data: seq<Byte>)

  predicate SafeExtras(extra: seq<Extra>) {
    forall i | 0 <= i < |extra| :: SafeRel(extra[i].path).Some?
  }

  function Added(e: Extra): PackFile {
    PackFile(Norm(e.path), if e.mode.Some? then e.mode.value else 0x180, Base64.Encode(e.data))
  }

  function AddedAll(extra: seq<Extra>): seq<PackFile> {
    seq(|extra|, i requires 0 <= i < |extra| => Added(extra[i]))
  }

  /** With the added entries behind the files; None when one of them is not safe. */
  ghost function PackWith(t: Tree, requests: seq<string>, skip: string -> bool, extra: seq<Extra>)
    : Option<seq<PackFile>>
  {
    var files :- Pack(t, requests, skip);
    if SafeExtras(extra) then Some(files + AddedAll(extra)) else None
  }

  /** When there is a pack, and what it is: found files within 20 MiB, every added entry safe. */
  lemma PackIs(t: Tree, requests: seq<string>, skip: string -> bool, extra: seq<Extra>)
    ensures var pack := PackWith(t, requests, skip, extra);
      && (pack.Some? <==> Weight(t, Contents(t, requests, skip)) <= 20_971_520 && SafeExtras(extra))
      && (pack.Some? ==> ListsThese(pack.value, t, Contents(t, requests, skip), extra))
  {
    if PackWith(t, requests, skip, extra).Some? {
      PiecesListed(t, Contents(t, requests, skip), extra);
    }
  }

  /** The files, each packed, and then the entries. */
  ghost predicate ListsThese(pack: seq<PackFile>, t: Tree, files: seq<Path>, extra: seq<Extra>) {
    && |pack| == |files| + |extra|
    && (forall i :: 0 <= i < |files| ==> files[i] in t && t[files[i]].File? && pack[i] == Packed(t, files[i]))
    && (forall i :: 0 <= i < |extra| ==> pack[|files| + i] == Added(extra[i]))
  }

  lemma PiecesListed(t: Tree, files: seq<Path>, extra: seq<Extra>)
    requires forall q :: q in files ==> q in t && t[q].File?
    ensures ListsThese(PackedAll(t, files) + AddedAll(extra), t, files, extra)
  {
    assert forall i :: 0 <= i < |files| ==> files[i] in files;
  }

  /** packPaths. */
  method PackPaths(t: Tree, requests: seq<string>, skip: string -> bool, extra: seq<Extra>)
    returns (pack: Option<seq<PackFile>>)
    requires Folder(t)
    ensures pack == PackWith(t, requests, skip, extra)
  {
    var found := Find(t, requests);
    var files := PackFound(t, found, skip);
    if files.None? {
      return None;
    }
    pack := AddExtras(files.value, extra);
  }

  /** The last loop. */
  method AddExtras(files: seq<PackFile>, extra: seq<Extra>) returns (pack: Option<seq<PackFile>>)
    ensures pack == if SafeExtras(extra) then Some(files + AddedAll(extra)) else None
  {
    var added: seq<PackFile> := [];
    for i := 0 to |extra|
      invariant |added| == i
      invariant forall j :: 0 <= j < i ==> SafeRel(extra[j].path).Some? && added[j] == Added(extra[j])
    {
      if SafeRel(extra[i].path).None? {
        return None;
      }
      added := added + [Added(extra[i])];
    }
    assert added == AddedAll(extra);
    pack := Some(files + added);
  }

  /** The second loop: bytes counted, each file once. */
  method PackFound(t: Tree, found: seq<Path>, skip: string -> bool) returns (pack: Option<seq<PackFile>>)
    requires forall q :: q in found ==> q in t && t[q].File?
    ensures var files := Chosen(found, skip);
      pack == if Weight(t, files) <= 20_971_520 then Some(PackedAll(t, files)) else None
  {
    var seen: seq<Path> := [];
    var out: seq<PackFile> := [];
    var bytes := 0;
    for i := 0 to |found|
      invariant seen == Chosen(found[..i], skip)
      invariant bytes == Weight(t, seen) <= PACK_MAX_BYTES
      invariant out == PackedAll(t, seen)
    {
      var q := found[i];
      OneFound(t, found, skip, i);
      if q !in seen && !skip(Join(q)) {
        seen := seen + [q];
        bytes := bytes + |t[q].bytes|;
        if bytes > PACK_MAX_BYTES {
          return None;
        }
        out := out + [Packed(t, q)];
      }
    }
    assert found[..|found|] == found;
    pack := Some(out);
  }

  // ---------------------------------------------------------------- reading and writing

  /** One file to write: where, with what mode, what. */
  datatype Item = Item(path: Path, mode: Mode, bytes: seq<Byte>)

  /** Owner bits only, and never none at all. */
  function KeepMode(m: Mode): Mode {
    if m & OWNER == 0 then 0x180 else m & OWNER
  }

  /** What is left of a mode: the owner's three bits and no other, reading and writing where there
      were none. */
  lemma ModeKept(m: Mode)
    ensures KeepMode(m) & 0xE3F == 0
    ensures KeepMode(m) & 0x1C0 == if m & 0x1C0 == 0 then 0x180 else m & 0x1C0
  {
  }

  function ReadFile(f: PackFile): Item {
    var p := SafeRel(f.path);
    Item(if p.Some? then p.value else [], f.mode, Base64.Decode(f.b64))
  }

  function ItemsOf(files: seq<PackFile>): seq<Item> {
    seq(|files|, i requires 0 <= i < |files| => ReadFile(files[i]))
  }

  /** A pack that readPack accepts. */
  predicate Readable(files: seq<PackFile>) {
    forall i | 0 <= i < |files| :: SafeRel(files[i].path).Some?
  }

  predicate ReadAs(f: PackFile, item: Item) {
    SafeRel(f.path).Some? && item == ReadFile(f) && SafePath(item.path)
  }

  /** readPack's checks, then what there is to write; None where it refuses. */
  method ReadPack(files: seq<PackFile>) returns (items: Option<seq<Item>>)
    ensures items == if Readable(files) then Some(ItemsOf(files)) else None
    ensures Readable(files) ==> forall i :: 0 <= i < |files| ==> SafePath(ItemsOf(files)[i].path)
  {
    var out: seq<Item> := [];
    for i := 0 to |files|
      invariant |out| == i && forall j :: 0 <= j < i ==> ReadAs(files[j], out[j])
    {
      SafeRelIsSafe(files[i].path);
      if SafeRel(files[i].path).None? {
        return None;
      }
      out := out + [ReadFile(files[i])];
    }
    assert out == ItemsOf(files);
    items := Some(out);
  }

  /** What was packed is read as it was: same path, same bytes. */
  lemma ReadPacked(t: Tree, q: Path)
    requires Folder(t) && q in t && t[q].File? && SafePath(q)
    ensures SafeRel(Packed(t, q).path).Some?
    ensures ReadFile(Packed(t, q)) == Item(q, t[q].mode & 0x1FF, t[q].bytes)
  {
    SafeRelJoin(q);
    Base64.DecodeEncode(t[q].bytes);
  }

  /** What an added entry is read as: at the path it was asked for, with the data given. */
  function AddedItem(e: Extra): Item {
    var p := SafeRel(e.path);
    Item(if p.Some? then p.value else [], Added(e).mode, e.data)
  }

  lemma AddedRead(e: Extra)
    requires SafeRel(e.path).Some?
    ensures SafeRel(Added(e).path) == SafeRel(e.path) && ReadFile(Added(e)) == AddedItem(e)
    ensures AddedItem(e) == Item(SafeRel(e.path).value, if e.mode == None then 0x180 else e.mode.value, e.data)
  {
    NormAgain(e.path);
    Base64.DecodeEncode(e.data);
  }

  // ---------------------------------------------------------------- writing

  /** Everything above a path. */
  function Above(p: Path): set<Path> {
    set k | 0 <= k < |p| :: p[..k]
  }

  lemma AboveIs(p: Path, q: Path)
    ensures q in Above(p) <==> q < p
  {
    if q < p {
      assert q == p[..|q|];
    }
    if q in Above(p) {
      var k :| 0 <= k < |p| && q == p[..k];
      assert |q| == k && q <= p;
    }
  }

  /** Something that is no folder lies above p, or a folder at p. */
  predicate Blocked(t: Tree, p: Path) {
    IsDir(t, p) || exists q | q in Above(p) :: q in t && !t[q].Dir?
  }

  lemma BlockedIs(t: Tree, p: Path)
    ensures Blocked(t, p) <==> IsDir(t, p) || exists q :: q in t && q < p && !t[q].Dir?
  {
    forall q {
      AboveIs(p, q);
    }
    if q :| q in t && q < p && !t[q].Dir? {
      assert q in Above(p);
    }
  }

  /** One more file in a folder: missing folders above it are made private. */
  function Put(t: Tree, item: Item): Tree {
    map q | q in t.Keys + Above(item.path) + {item.path} ::
      if q == item.path then File(KeepMode(item.mode), item.bytes) else if q in t then t[q] else Dir(OWNER)
  }

  /** Folders made above a path, then the file. */
  lemma PutIs(t: Tree, u: Tree, item: Item)
    requires t.Keys <= u.Keys && forall q :: q in t ==> u[q] == t[q]
    requires forall q :: q in u && q !in t ==> q < item.path && u[q] == Dir(OWNER)
    requires forall q :: q < item.path ==> IsDir(u, q)
    ensures u[item.path := File(KeepMode(item.mode), item.bytes)] == Put(t, item)
  {
    var a, b := u[item.path := File(KeepMode(item.mode), item.bytes)], Put(t, item);
    forall q
      ensures q in a <==> q in b
    {
      AboveIs(item.path, q);
      assert q < item.path ==> IsDir(u, q);
    }
    assert a.Keys == b.Keys;
  }

  /** Items written one after the other; None when one of them cannot be. */
  function PutAll(t: Tree, items: seq<Item>): Option<Tree> {
    if items == [] then Some(t) else
    var n := |items| - 1;
    var before :- PutAll(t, items[..n]);
    if Blocked(before, items[n].path) then None else Some(Put(before, items[n]))
  }

  lemma {:induction false} PutAllStops(t: Tree, items: seq<Item>, k: nat)
    requires k <= |items| && PutAll(t, items[..k]).None?
    ensures PutAll(t, items).None?
    decreases |items|
  {
    if k < |items| {
      assert items[..|items| - 1][..k] == items[..k];
      PutAllStops(t, items[..|items| - 1], k);
    } else {
      assert items[..k] == items;
    }
  }

  /** Nothing but files and folders. */
  ghost predicate PlainFolder(t: Tree) {
    WellFormed(t) && forall q :: q in t ==> t[q].Dir? || t[q].File?
  }

  lemma PutKeepsPlain(t: Tree, item: Item)
    requires PlainFolder(t) && item.path != [] && !Blocked(t, item.path)
    ensures PlainFolder(Put(t, item))
  {
    var u, p := Put(t, item), item.path;
    NothingBelow(t, p);
    forall q | q in u && q != []
      ensures IsDir(u, Parent(q))
    {
      AboveIs(p, Parent(q));
      AboveIs(p, q);
      if q <= p {
        assert Parent(q) < p;
      } else {
        assert Parent(q) in t && t[Parent(q)].Dir? && Parent(q) != p;
      }
    }
  }

  lemma AllAbove(t: Tree, p: Path)
    requires WellFormed(t) && p != [] && IsDir(t, Parent(p))
    ensures forall q :: q < p ==> IsDir(t, q)
  {
    forall q | q < p
      ensures IsDir(t, q)
    {
      if q != Parent(p) {
        AncestorIsDir(t, q, Parent(p));
      }
    }
  }

  /** The same with private folders more, all of them above p. */
  ghost predicate WithFolders(before: Tree, after: Tree, p: Path) {
    && before.Keys <= after.Keys && (forall q :: q in before ==> after[q] == before[q])
    && forall q :: q in after && q !in before ==> q < p && after[q] == Dir(OWNER)
  }

  lemma FolderKeepsPlain(t: Tree, d: Path)
    requires PlainFolder(t) && d !in t && d != [] && IsDir(t, Parent(d))
    ensures PlainFolder(t[d := Dir(OWNER)])
  {
    var u := t[d := Dir(OWNER)];
    forall q | q in u && q != []
      ensures IsDir(u, Parent(q))
    {
      assert q != d ==> IsDir(t, Parent(q));
    }
  }

  lemma OneMoreFolder(before: Tree, t: Tree, d: Path, p: Path)
    requires WithFolders(before, t, p) && d !in t && d < p
    ensures WithFolders(before, t[d := Dir(OWNER)], p)
  {
  }

  lemma AllWere(before: Tree, after: Tree, p: Path)
    requires WithFolders(before, after, p) && forall q :: q < p ==> IsDir(after, q)
    ensures forall q :: q in before && q < p ==> before[q].Dir?
  {
    forall q | q in before && q < p
      ensures before[q].Dir?
    {
      assert IsDir(after, q);
    }
  }

  const EMPTY: Tree := map[[] := Dir(OWNER)]

  class Target {
    var nodes: Tree

    constructor ()
      ensures nodes == EMPTY
    {
      nodes := EMPTY;
    }

    /** mkdir -p, mode 0700; false where something that is no folder is in the way. */
    method MakeParents(p: Path) returns (ok: bool)
      requires PlainFolder(nodes) && p != []
      modifies this
      ensures PlainFolder(nodes) && WithFolders(old(nodes), nodes, p)
      ensures ok <==> forall q :: q in old(nodes) && q < p ==> old(nodes)[q].Dir?
      ensures ok ==> forall q :: q < p ==> IsDir(nodes, q)
    {
      for k := 1 to |p|
        invariant PlainFolder(nodes) && WithFolders(old(nodes), nodes, p) && IsDir(nodes, p[..k - 1])
      {
        var d := p[..k];
        assert Parent(d) == p[..k - 1] && d < p;
        if d !in nodes {
          FolderKeepsPlain(nodes, d);
          OneMoreFolder(old(nodes), nodes, d, p);
          nodes := nodes[d := Dir(OWNER)];
        } else if !nodes[d].Dir? {
          assert d in old(nodes);
          return false;
        }
      }
      assert Parent(p) == p[..|p| - 1];
      AllAbove(nodes, p);
      AllWere(old(nodes), nodes, p);
      ok := true;
    }

    /** One entry of writePack: its folders, then the file. */
    method WriteItem(item: Item) returns (ok: bool)
      requires PlainFolder(nodes) && item.path != []
      modifies this
      ensures PlainFolder(nodes)
      ensures ok <==> !Blocked(old(nodes), item.path)
      ensures ok ==> nodes == Put(old(nodes), item)
      ensures !ok ==> old(nodes).Keys <= nodes.Keys && forall q :: q in old(nodes) ==> nodes[q] == old(nodes)[q]
    {
      ghost var t := nodes;
      BlockedIs(t, item.path);
      var made := MakeParents(item.path);
      if !made || (item.path in nodes && nodes[item.path].Dir?) {
        return false;
      }
      PutIs(t, nodes, item);
      nodes := nodes[item.path := File(KeepMode(item.mode), item.bytes)];
      PutKeepsPlain(t, item);
      ok := true;
    }

    /** writePack, every entry at its own path. */
    method WritePack(items: seq<Item>) returns (ok: bool)
      requires PlainFolder(nodes) && forall i :: 0 <= i < |items| ==> items[i].path != []
      modifies this
      ensures PlainFolder(nodes)
      ensures ok <==> PutAll(old(nodes), items).Some?
      ensures ok ==> nodes == PutAll(old(nodes), items).value
    {
      ghost var t := nodes;
      for i := 0 to |items|
        invariant PlainFolder(nodes) && PutAll(t, items[..i]) == Some(nodes)
      {
        assert items[..i + 1][..i] == items[..i];
        var written := WriteItem(items[i]);
        if !written {
          PutAllStops(t, items, i + 1);
          return false;
        }
      }
      assert items[..|items|] == items;
      ok := true;
    }
  }

  // ---------------------------------------------------------------- what a written folder holds

  /** The i-th item is the last of the first n with its path: a later one would replace it. */
  ghost predicate Stands(items: seq<Item>, n: nat, i: nat)
    requires n <= |items|
  {
    i < n && forall j :: i < j < n ==> items[j].path != items[i].path
  }

  /** The folder is exactly the first n items, each with its owner bits, in private folders. */
  ghost predicate Holds(t: Tree, items: seq<Item>, n: nat)
    requires n <= |items|
  {
    && (forall i: nat :: Stands(items, n, i) ==> Written(t, items[i]))
    && (forall q :: q in t && q != [] ==> exists i :: 0 <= i < n && q <= items[i].path)
    && (forall q :: q in t && t[q] != Dir(OWNER) ==> exists i :: 0 <= i < n && q == items[i].path)
  }

  ghost predicate Written(t: Tree, item: Item) {
    item.path in t && t[item.path] == File(KeepMode(item.mode), item.bytes)
  }

  /** No item's path lies above another's. */
  ghost predicate Apart(items: seq<Item>) {
    forall i, j :: 0 <= i < |items| && 0 <= j < |items| ==> !(items[i].path < items[j].path)
  }

  /** Items can be written into an empty folder exactly when no path lies above another; and then
      the folder holds them and nothing else. */
  lemma {:induction false} WrittenFolder(items: seq<Item>)
    requires forall i :: 0 <= i < |items| ==> items[i].path != []
    ensures PutAll(EMPTY, items).Some? <==> Apart(items)
    ensures PutAll(EMPTY, items).Some? ==>
      PlainFolder(PutAll(EMPTY, items).value) && Holds(PutAll(EMPTY, items).value, items, |items|)
  {
    if items == [] {
      EmptyHolds(items);
    } else {
      var n := |items| - 1;
      var most := items[..n];
      assert forall i :: 0 <= i < |most| ==> most[i].path != [];
      WrittenFolder(most);
      FewerApart(items);
      if PutAll(EMPTY, most).Some? {
        WrittenOneMore(PutAll(EMPTY, most).value, items);
      }
    }
  }

  lemma EmptyHolds(items: seq<Item>)
    requires items == []
    ensures PlainFolder(EMPTY) && Holds(EMPTY, items, 0) && Apart(items)
  {
  }

  lemma FewerApart(items: seq<Item>)
    requires items != []
    ensures Apart(items) ==> Apart(items[..|items| - 1])
  {
  }

  /** The last item, on a folder that holds the ones before it. */
  lemma WrittenOneMore(t: Tree, items: seq<Item>)
    requires items != [] && items[|items| - 1].path != []
    requires PlainFolder(t) && Holds(t, items[..|items| - 1], |items| - 1) && Apart(items[..|items| - 1])
    ensures !Blocked(t, items[|items| - 1].path) <==> Apart(items)
    ensures !Blocked(t, items[|items| - 1].path) ==>
      PlainFolder(Put(t, items[|items| - 1])) && Holds(Put(t, items[|items| - 1]), items, |items|)
  {
    var n := |items| - 1;
    SameHolds(t, items, n);
    if Blocked(t, items[n].path) {
      BlockedCollides(t, items, n);
    } else {
      PutKeepsPlain(t, items[n]);
      OneMoreHeld(t, items, n);
      HeldApart(Put(t, items[n]), items);
    }
  }

  lemma SameHolds(t: Tree, items: seq<Item>, n: nat)
    requires n <= |items| && Holds(t, items[..n], n)
    ensures Holds(t, items, n)
  {
    forall i: nat | Stands(items, n, i)
      ensures Written(t, items[i])
    {
      assert Stands(items[..n], n, i);
    }
    forall q | q in t
      ensures q != [] ==> exists i :: 0 <= i < n && q <= items[i].path
      ensures t[q] != Dir(OWNER) ==> exists i :: 0 <= i < n && q == items[i].path
    {
      if q != [] {
        var i :| 0 <= i < n && q <= items[..n][i].path;
        assert q <= items[i].path;
      }
      if t[q] != Dir(OWNER) {
        var i :| 0 <= i < n && q == items[..n][i].path;
        assert q == items[i].path;
      }
    }
  }

  /** What is in the way of an item collides with it. */
  lemma BlockedCollides(t: Tree, items: seq<Item>, n: nat)
    requires n < |items| && items[n].path != [] && Holds(t, items, n) && Blocked(t, items[n].path)
    ensures !Apart(items)
  {
    var p := items[n].path;
    if IsDir(t, p) {
      FolderCollides(t, items, n);
    } else {
      var q :| q in Above(p) && q in t && !t[q].Dir?;
      AboveIs(p, q);
      var i :| 0 <= i < n && q == items[i].path;
      assert items[i].path < items[n].path;
    }
  }

  lemma FolderCollides(t: Tree, items: seq<Item>, n: nat)
    requires n < |items| && items[n].path != [] && Holds(t, items, n) && IsDir(t, items[n].path)
    ensures !Apart(items)
  {
    var i :| 0 <= i < n && items[n].path <= items[i].path;
    LastOf(items, n, i);
    var j: nat :| Stands(items, n, j) && items[j].path == items[i].path;
    assert Written(t, items[j]);
    ProperPrefix(items[n].path, items[i].path);
  }

  /** Some item with a path is the last with that path. */
  lemma {:induction false} LastOf(items: seq<Item>, n: nat, i: nat)
    requires i < n <= |items|
    ensures exists j: nat :: Stands(items, n, j) && items[j].path == items[i].path
    decreases n - i
  {
    if !Stands(items, n, i) {
      var j :| i < j < n && items[j].path == items[i].path;
      LastOf(items, n, j);
    }
  }

  /** Items that a folder holds together do not collide. */
  lemma HeldApart(t: Tree, items: seq<Item>)
    requires PlainFolder(t) && Holds(t, items, |items|)
    ensures Apart(items)
  {
    forall i, j | 0 <= i < |items| && 0 <= j < |items|
      ensures !(items[i].path < items[j].path)
    {
      LastOf(items, |items|, i);
      LastOf(items, |items|, j);
      NothingBelow(t, items[i].path);
    }
  }

  lemma OneMoreHeld(t: Tree, items: seq<Item>, n: nat)
    requires n < |items| && PlainFolder(t) && Holds(t, items, n) && !Blocked(t, items[n].path)
    ensures Holds(Put(t, items[n]), items, n + 1)
  {
    var u := Put(t, items[n]);
    forall i: nat | Stands(items, n + 1, i)
      ensures Written(u, items[i])
    {
      StillWritten(t, items, n, i);
    }
    forall q | q in u
      ensures q != [] ==> exists i :: 0 <= i < n + 1 && q <= items[i].path
      ensures u[q] != Dir(OWNER) ==> exists i :: 0 <= i < n + 1 && q == items[i].path
    {
      HeldOneMore(t, items, n, q);
    }
  }

  lemma StillWritten(t: Tree, items: seq<Item>, n: nat, i: nat)
    requires n < |items| && Holds(t, items, n) && Stands(items, n + 1, i)
    ensures Written(Put(t, items[n]), items[i])
  {
    if i < n {
      assert Stands(items, n, i) && items[n].path != items[i].path;
    }
  }

  lemma HeldOneMore(t: Tree, items: seq<Item>, n: nat, q: Path)
    requires n < |items| && Holds(t, items, n) && q in Put(t, items[n])
    ensures q != [] ==> exists i :: 0 <= i < n + 1 && q <= items[i].path
    ensures Put(t, items[n])[q] != Dir(OWNER) ==> exists i :: 0 <= i < n + 1 && q == items[i].path
  {
    AboveIs(items[n].path, q);
    if q == items[n].path {
    } else if q in t {
      if q != [] {
        var i :| 0 <= i < n && q <= items[i].path;
      }
      if t[q] != Dir(OWNER) {
        var i :| 0 <= i < n && q == items[i].path;
      }
    } else {
      assert q <= items[n].path;
    }
  }
}
