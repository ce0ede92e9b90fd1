/** Opening a sealed snapshot: the checks on its listing and on the links it holds. */
module OpenSnapshot {
  import opened Bytes
  import opened FileTree
  import opened LinkPaths
  import opened PathText
  import Listing
  import Backup
  import Restore
  import RoundTrip

  // ---------------------------------------------------------------- the listing

  datatype Verdict = Blank | Bad | Top(name: Name)

  /** One line of a listing: nothing, refused, or the top-level name it would restore. */
  function Judge(raw: string): Verdict {
    var e := DropDot(raw);
    if e == "" then Blank
    else if e[0] == '/' || Drive(e) then Bad
    else if ".." in Split(e) || Split(e)[0] in Restore.NEVER_FROM_SNAPSHOT then Bad
    else Top(Split(e)[0])
  }

  /** No line is bad, and some line is a path. */
  ghost predicate Accepted(lines: seq<string>) {
    (forall e :: e in lines ==> !Judge(e).Bad?) && exists e :: e in lines && Judge(e).Top?
  }

  /** checkEntries: the sorted top-level names, or a refusal. */
  method CheckEntries(lines: seq<string>) returns (tops: Option<seq<Name>>)
    ensures tops.Some? <==> Accepted(lines)
    ensures tops.Some? ==> Listing.Ascending(tops.value)
    ensures tops.Some? ==> forall n :: n in tops.value <==> exists e :: e in lines && Judge(e) == Top(n)
  {
    var found: set<Name> := {};
    for i := 0 to |lines|
      invariant forall e :: e in lines[..i] ==> !Judge(e).Bad?
      invariant forall e :: e in lines[..i] && Judge(e).Top? ==> Judge(e).name in found
      invariant forall n :: n in found ==> exists e :: e in lines[..i] && Judge(e) == Top(n)
    {
      var v := Judge(lines[i]);
      ghost var more := lines[..i + 1];
      assert more == lines[..i] + [lines[i]];
      assert lines[i] in more && forall e :: e in lines[..i] ==> e in more;
      if v.Bad? {
        assert lines[i] in lines;
        return None;
      }
      if v.Top? {
        found := found + {v.name};
      }
    }
    assert lines[..|lines|] == lines;
    if found == {} {
      return None;
    }
    var names := Listing.Sorted(found);
    var n :| n in found;
    assert exists e :: e in lines && Judge(e) == Top(n);
    tops := Some(names);
  }

  // ---------------------------------------------------------------- lines that land on the door

  /** Where tar puts a line's entry: empty segments and dots drop out of the way. */
  function Landing(line: string): Path {
    Resolve([], Split(line))
  }

  predicate OnDoor(line: string) {
    Landing(line) != [] && Landing(line)[0] in Restore.NEVER_FROM_SNAPSHOT
  }

  /** A door's name with nothing but dots and empty segments ahead of it, k of them. */
  predicate DoorAt(parts: seq<string>, k: nat) {
    k < |parts| && parts[k] in Restore.NEVER_FROM_SNAPSHOT && forall j | 0 <= j < k :: parts[j] in {"", "."}
  }

  /** A door's name with at least one of them ahead. */
  ghost predicate DoorBehindDots(parts: seq<string>) {
    exists k: nat :: k > 0 && DoorAt(parts, k)
  }

  lemma {:induction false} FirstReal(parts: seq<string>)
    requires ".." !in parts
    ensures (Resolve([], parts) != [] && Resolve([], parts)[0] in Restore.NEVER_FROM_SNAPSHOT)
       <==> exists k: nat :: DoorAt(parts, k)
  {
    if parts != [] {
      var rest := parts[1..];
      assert parts[0] in parts && forall x :: x in rest ==> x in parts;
      if parts[0] in {"", "."} {
        FirstReal(rest);
        if k: nat :| DoorAt(rest, k) {
          assert DoorAt(parts, k + 1);
        }
        if k: nat :| DoorAt(parts, k) {
          assert k > 0 && DoorAt(rest, k - 1);
        }
      } else {
        ResolveDown([parts[0]], rest);
        assert [] + [parts[0]] == [parts[0]];
        if parts[0] in Restore.NEVER_FROM_SNAPSHOT {
          assert DoorAt(parts, 0);
        }
      }
    }
  }

  /** A line the checks let by lands on the door exactly when a dot that dropping one "./" has left
      stands ahead of a door's name. */
  lemma AcceptedOnDoor(raw: string)
    requires !Judge(raw).Bad?
    ensures OnDoor(raw) <==> DoorBehindDots(Split(DropDot(raw)))
  {
    var parts := Split(DropDot(raw));
    DropDotLands(raw);
    if DropDot(raw) == "" {
      assert parts == [""] && parts[1..] == [];
      assert Landing("") == [];
    } else {
      assert !DoorAt(parts, 0);
      FirstReal(parts);
    }
  }

  lemma DropDotLands(raw: string)
    ensures Landing(raw) == Landing(DropDot(raw))
  {
    if StartsWith(raw, "./") {
      SplitFirst(".", raw[2..]);
      assert raw == "." + "/" + raw[2..];
      assert (["."] + Split(raw[2..]))[1..] == Split(raw[2..]);
    }
  }

  /** It happens, to every name on the door: such a listing is accepted. Only that laying a snapshot
      skips those names keeps the door. */
  lemma DoorLineAccepted(name: Name)
    requires name in Restore.NEVER_FROM_SNAPSHOT
    ensures var line := "././" + name; OnDoor(line) && Judge(line) == Top(".") && Accepted([line])
  {
    var line := "././" + name;
    DoorNamesPlain(name);
    DotsAhead(name);
    assert DropDot(line) == "./" + name && [".", name][0] == ".";
    assert DoorAt([".", name], 1);
    AcceptedOnDoor(line);
    assert line in [line];
  }

  lemma DotsAhead(name: Name)
    requires '/' !in name
    ensures DropDot("././" + name) == "./" + name && Split("./" + name) == [".", name]
  {
    var line := "././" + name;
    assert line[..2] == "./" && line[2..] == "./" + name;
    assert "./" + name == "." + "/" + name;
    SplitFirst(".", name);
    SplitName(name);
  }

  lemma DoorNamesPlain(name: Name)
    requires name in Restore.NEVER_FROM_SNAPSHOT
    ensures '/' !in name && name != ".."
  {
  }

  // ---------------------------------------------------------------- names as tar lists them

  predicate PlainAscii(c: char) {
    ' ' <= c <= '~' && c != '\\'
  }

  /** How tar lists a character: as itself, or escaped behind a backslash; never as a line break. */
  ghost predicate Quotes(quote: char -> string) {
    forall c ::
      && (quote(c) == [c] || (quote(c) != "" && quote(c)[0] == '\\' && '/' !in quote(c)))
      && (PlainAscii(c) ==> quote(c) == [c])
      && '\n' !in quote(c)
  }

  function EscapeAll(c: char): string {
    if PlainAscii(c) then [c] else "\\000"
  }

  type Quote = quote: char -> string | Quotes(quote) witness EscapeAll

  function Quoted(quote: Quote, s: string): string {
    if s == "" then "" else quote(s[0]) + Quoted(quote, s[1..])
  }

  function QuotedPath(quote: Quote, p: Path): Path {
    seq(|p|, i requires 0 <= i < |p| => Quoted(quote, p[i]))
  }

  lemma {:induction false} QuotedConcat(quote: Quote, a: string, b: string)
    ensures Quoted(quote, a + b) == Quoted(quote, a) + Quoted(quote, b)
  {
    if a == "" {
      assert a + b == b;
    } else {
      QuotedConcat(quote, a[1..], b);
      assert (a + b)[1..] == a[1..] + b;
      Associative(quote(a[0]), Quoted(quote, a[1..]), Quoted(quote, b));
    }
  }

  /** A quoted name that shows no backslash is the name itself. */
  lemma {:induction false} QuotedPlain(quote: Quote, s: string)
    requires '\\' !in Quoted(quote, s)
    ensures Quoted(quote, s) == s
  {
    if s != "" {
      assert quote(s[0])[0] in Quoted(quote, s);
      QuotedPlain(quote, s[1..]);
    }
  }

  lemma {:induction false} QuotedNoSlash(quote: Quote, s: string)
    ensures '/' in Quoted(quote, s) <==> '/' in s
    ensures '\n' !in Quoted(quote, s)
    ensures Quoted(quote, s) == "" <==> s == ""
  {
    if s != "" {
      QuotedNoSlash(quote, s[1..]);
      assert s == [s[0]] + s[1..];
    }
  }

  /** Quoting a path is quoting its names. */
  lemma {:induction false} QuotedJoin(quote: Quote, p: Path)
    ensures Quoted(quote, Join(p)) == Join(QuotedPath(quote, p))
  {
    if |p| > 1 {
      QuotedJoin(quote, p[1..]);
      QuotedConcat(quote, p[0] + "/", Join(p[1..]));
      QuotedConcat(quote, p[0], "/");
      assert Quoted(quote, "/") == quote('/') == "/";
      assert QuotedPath(quote, p)[1..] == QuotedPath(quote, p[1..]);
    } else if |p| == 1 {
      assert QuotedPath(quote, p) == [Quoted(quote, p[0])];
    }
  }

  /** Quoting neither hides nor fakes a name that matters: a dot, the door, a drive. */
  lemma QuotedName(quote: Quote, n: Name)
    requires Ordinary(n)
    ensures Ordinary(Quoted(quote, n))
    ensures Quoted(quote, n) in Restore.NEVER_FROM_SNAPSHOT ==> n in Restore.NEVER_FROM_SNAPSHOT
    ensures Drive(Quoted(quote, n)) ==> Drive(n)
  {
    QuotedNoSlash(quote, n);
    var s := Quoted(quote, n);
    if '\\' !in s {
      QuotedPlain(quote, n);
    } else if Drive(s) {
      assert quote(n[0]) == [n[0]] && s == [n[0]] + Quoted(quote, n[1..]);
      assert n[1..] != "" && s[1] == quote(n[1])[0];
    }
    NamesThatMatter();
  }

  lemma NamesThatMatter()
    ensures forall n :: n in Restore.NEVER_FROM_SNAPSHOT ==> '\\' !in n
    ensures '\\' !in "." && '\\' !in ".."
  {
  }

  /** A member as tar lists it: a folder with a slash behind it. */
  function Line(quote: Quote, t: Tree, q: Path): string
    requires q in t
  {
    if t[q].Dir? then Quoted(quote, Join(q)) + "/" else Quoted(quote, Join(q))
  }

  /** A line ends in a slash exactly when it is a folder's. */
  lemma FolderLine(quote: Quote, t: Tree, q: Path)
    requires q in t && q != [] && forall i :: 0 <= i < |q| ==> Ordinary(q[i])
    ensures var s := Line(quote, t, q); s != "" && (s[|s| - 1] == '/' <==> t[q].Dir?)
  {
    var names := QuotedPath(quote, q);
    forall i | 0 <= i < |q|
      ensures Ordinary(names[i])
    {
      QuotedName(quote, q[i]);
    }
    QuotedJoin(quote, q);
    JoinShape(names);
  }

  /** What a line of ordinary names looks like: nothing absolute, nothing climbing. */
  lemma LineOf(p: Path)
    requires p != [] && forall i :: 0 <= i < |p| ==> Ordinary(p[i])
    ensures var s := Join(p);
      s != "" && s[0] != '/' && !StartsWith(s, "./") && (Drive(s) <==> Drive(p[0])) && Split(s) == p
  {
    JoinStart(p);
    SplitJoin(p);
  }

  lemma FolderLineOf(p: Path)
    requires p != [] && forall i :: 0 <= i < |p| ==> Ordinary(p[i])
    ensures var s := Join(p) + "/";
      s != "" && s[0] != '/' && !StartsWith(s, "./") && (Drive(s) <==> Drive(p[0])) && Split(s) == p + [""]
  {
    JoinShape(p);
    SlashAfter(p[0], Join(p));
    FirstSegment(p[0], Join(p) + "/");
    SplitPath(p, "");
  }

  lemma NeverClimbs(p: Path)
    requires forall i :: 0 <= i < |p| ==> Ordinary(p[i])
    ensures ".." !in p && ".." !in p + [""]
  {
  }

  /** A line of ordinary names clear of the door is accepted, for the name it lies under. */
  lemma PathAccepted(p: Path)
    requires p != [] && (forall i :: 0 <= i < |p| ==> Ordinary(p[i]))
    requires !Drive(p[0]) && p[0] !in Restore.NEVER_FROM_SNAPSHOT
    ensures Judge(Join(p)) == Top(p[0])
  {
    LineOf(p);
    NeverClimbs(p);
    JudgeTop(Join(p), p);
  }

  /** So is a folder's, with its slash. */
  lemma FolderAccepted(p: Path)
    requires p != [] && (forall i :: 0 <= i < |p| ==> Ordinary(p[i]))
    requires !Drive(p[0]) && p[0] !in Restore.NEVER_FROM_SNAPSHOT
    ensures Judge(Join(p) + "/") == Top(p[0])
  {
    FolderLineOf(p);
    NeverClimbs(p);
    JudgeTop(Join(p) + "/", p + [""]);
  }

  lemma SlashAfter(name: string, s: string)
    requires name <= s && (|s| == |name| || s[|name|] == '/')
    ensures name <= s + "/" && (s + "/")[|name|] == '/' && s + "/" + "" == s + "/"
  {
  }

  lemma JudgeTop(s: string, parts: seq<string>)
    requires s != "" && s[0] != '/' && !StartsWith(s, "./") && !Drive(s)
    requires Split(s) == parts && ".." !in parts && parts[0] !in Restore.NEVER_FROM_SNAPSHOT
    ensures Judge(s) == Top(parts[0])
  {
  }

  /** A line of a backup's archive is always accepted, for the top-level name it lies under. */
  lemma MemberAccepted(quote: Quote, t: Tree, q: Path)
    requires q in t && q != [] && (forall i :: 0 <= i < |q| ==> Ordinary(q[i]))
    requires !Drive(q[0]) && q[0] !in Restore.NEVER_FROM_SNAPSHOT
    ensures Judge(Line(quote, t, q)) == Top(Quoted(quote, q[0]))
  {
    var p := QuotedPath(quote, q);
    forall i | 0 <= i < |q|
      ensures Ordinary(p[i])
    {
      QuotedName(quote, q[i]);
    }
    QuotedName(quote, q[0]);
    QuotedJoin(quote, q);
    PathAccepted(p);
    FolderAccepted(p);
  }

  // ---------------------------------------------------------------- the links

  /** Every link at or below a folder passes the test. */
  ghost predicate LinksPass(t: Tree, dir: Path, stateDir: Path) {
    forall q :: q in t && dir < q && t[q].Link? ==> Passes(stateDir, q, t[q].target)
  }

  /** Every link leads inside and not by a roundabout text, or climbs out behind the state
      directory's own text. */
  ghost predicate LinksInsideOrClimbing(t: Tree, dir: Path, stateDir: Path) {
    forall q :: q in t && dir < q && t[q].Link? ==>
      if LeadsInside(stateDir, q, t[q].target) then !Roundabout(stateDir, t[q].target)
      else ClimbsOut(stateDir, t[q].target)
  }

  /** The names of a tree are names of a file system. */
  ghost predicate Named(t: Tree) {
    forall q :: q in t ==> AllOrdinary(q)
  }

  lemma LinksPassIff(t: Tree, dir: Path, stateDir: Path)
    requires ProperDir(stateDir) && Named(t)
    ensures LinksPass(t, dir, stateDir) <==> LinksInsideOrClimbing(t, dir, stateDir)
  {
    forall q | q in t && dir < q && t[q].Link? {
      LinkTest(stateDir, q, t[q].target);
    }
  }

  /** The walk below a folder; false where it meets a link that does not pass. */
  method WalkLinks(t: Tree, dir: Path, stateDir: Path) returns (ok: bool)
    requires WellFormed(t) && IsDir(t, dir)
    ensures ok <==> LinksPass(t, dir, stateDir)
    decreases Below(t, dir)
  {
    var todo := Names(t, dir);
    ghost var done: set<Name> := {};
    while todo != {}
      invariant todo !! done && forall n :: n in Names(t, dir) <==> n in todo || n in done
      invariant forall q :: q in t && dir < q && q[|dir|] in done && t[q].Link? ==>
        Passes(stateDir, q, t[q].target)
    {
      var n :| n in todo;
      var p := dir + [n];
      UnderName(t, dir, n);
      if t[p].Link? && !Passes(stateDir, p, t[p].target) {
        return false;
      }
      if t[p].Dir? {
        var below := WalkLinks(t, p, stateDir);
        if !below {
          return false;
        }
      }
      todo, done := todo - {n}, done + {n};
    }
    forall q | q in t && dir < q && t[q].Link?
      ensures Passes(stateDir, q, t[q].target)
    {
      ChildOnTheWay(t, dir, q);
    }
    ok := true;
  }

  /** The walk over the unpacked snapshot lets by the links that lead inside and not by a roundabout
      text, and those that climb out. */
  method CheckLinks(t: Tree, stateDir: Path) returns (ok: bool)
    requires WellFormed(t)
    ensures ok <==> LinksPass(t, [], stateDir)
    ensures ProperDir(stateDir) && Named(t) ==> (ok <==> LinksInsideOrClimbing(t, [], stateDir))
  {
    ok := WalkLinks(t, [], stateDir);
    if ProperDir(stateDir) && Named(t) {
      LinksPassIff(t, [], stateDir);
    }
  }

  /** What lies under one name of a folder is that name's entry, or below it. */
  lemma UnderName(t: Tree, dir: Path, n: Name)
    requires WellFormed(t) && IsDir(t, dir) && n in Names(t, dir)
    ensures Below(t, dir + [n]) < Below(t, dir) && dir < dir + [n]
    ensures forall q :: q in t && dir + [n] < q ==> dir < q && q[|dir|] == n
    ensures forall q :: q in t && dir < q && q[|dir|] == n ==> q == dir + [n] || (dir + [n] < q && IsDir(t, dir + [n]))
  {
    assert dir in Below(t, dir) && dir !in Below(t, dir + [n]);
    forall q | q in t && dir < q && q[|dir|] == n
      ensures q == dir + [n] || (dir + [n] < q && IsDir(t, dir + [n]))
    {
      assert dir + [n] <= q;
      if q != dir + [n] {
        ProperPrefix(dir + [n], q);
        AncestorIsDir(t, dir + [n], q);
      }
    }
  }

  // ---------------------------------------------------------------- opening

  /** A sealed snapshot as the passphrase turns it out: whether it opens, the lines of its listing,
      and what it unpacks to. */
  datatype Sealed = Sealed(opens: bool, lines: seq<string>, unpacked: Tree)

  datatype Opened = Closed | Open(unpacked: Tree)

  ghost predicate Sound(s: Sealed, stateDir: Path) {
    s.opens && Accepted(s.lines) && LinksPass(s.unpacked, [], stateDir)
  }

  /** openSnapshot. */
  method OpenSealed(s: Sealed, stateDir: Path) returns (o: Opened)
    requires WellFormed(s.unpacked)
    ensures o == if Sound(s, stateDir) then Open(s.unpacked) else Closed
    ensures ProperDir(stateDir) && Named(s.unpacked) ==>
      (o.Open? <==> s.opens && Accepted(s.lines) && LinksInsideOrClimbing(s.unpacked, [], stateDir))
  {
    if ProperDir(stateDir) && Named(s.unpacked) {
      LinksPassIff(s.unpacked, [], stateDir);
    }
    if !s.opens {
      return Closed;
    }
    var tops := CheckEntries(s.lines);
    if tops.None? {
      return Closed;
    }
    var ok := CheckLinks(s.unpacked, stateDir);
    return if ok then Open(s.unpacked) else Closed;
  }

  // ---------------------------------------------------------------- which backups open

  /** The lines of a backup's listing: one for each entry, and the empty text that splitting leaves
      behind the last line break. */
  function Lines(quote: Quote, t: Tree, entries: seq<Path>): seq<string>
    requires forall q :: q in entries ==> q in t
  {
    seq(|entries|, i requires 0 <= i < |entries| => Line(quote, t, entries[i])) + [""]
  }

  /** The links a backup archived. */
  ghost predicate ArchivedLink(t: Tree, members: set<Path>, q: Path) {
    q in members && q != [] && q in t && t[q].Link?
  }

  /** They all pass the test; they all lead inside; none climbs out; all are in normal form. */
  ghost predicate MembersPass(t: Tree, members: set<Path>, stateDir: Path) {
    forall q :: ArchivedLink(t, members, q) ==> Passes(stateDir, q, t[q].target)
  }

  ghost predicate MembersInside(t: Tree, members: set<Path>, stateDir: Path) {
    forall q :: ArchivedLink(t, members, q) ==> LeadsInside(stateDir, q, t[q].target)
  }

  ghost predicate MembersInsideOrClimbing(t: Tree, members: set<Path>, stateDir: Path) {
    forall q :: ArchivedLink(t, members, q) ==>
      if LeadsInside(stateDir, q, t[q].target) then !Roundabout(stateDir, t[q].target)
      else ClimbsOut(stateDir, t[q].target)
  }

  ghost predicate MembersClimb(t: Tree, members: set<Path>, stateDir: Path) {
    exists q :: ArchivedLink(t, members, q) && ClimbsOut(stateDir, t[q].target)
  }

  ghost predicate MembersStraight(t: Tree, members: set<Path>) {
    forall q :: ArchivedLink(t, members, q) ==> Straight(t[q].target)
  }

  /** Where the links lead decides, but for two kinds: those that pass and lead outside are those
      that climb out, and where every target is in normal form there are none of either kind. */
  lemma MembersTest(t: Tree, members: set<Path>, stateDir: Path)
    requires ProperDir(stateDir) && Named(t)
    ensures MembersPass(t, members, stateDir) <==> MembersInsideOrClimbing(t, members, stateDir)
    ensures MembersPass(t, members, stateDir) ==>
      (MembersInside(t, members, stateDir) <==> !MembersClimb(t, members, stateDir))
    ensures MembersStraight(t, members) ==>
      (MembersPass(t, members, stateDir) <==> MembersInside(t, members, stateDir))
  {
    forall q | ArchivedLink(t, members, q) {
      LinkTest(stateDir, q, t[q].target);
    }
    if MembersStraight(t, members) {
      forall q | ArchivedLink(t, members, q) {
        StraightLink(stateDir, q, t[q].target);
      }
    }
  }

  /** A state whose names are ordinary and whose targets do not look like drives. */
  ghost predicate Nameable(sc: Backup.Scene, targets: seq<Path>) {
    && RoundTrip.Archivable(sc, targets) && targets != []
    && Named(sc.state) && (forall t :: t in targets ==> !Drive(t[0]))
  }

  /** The entries of a backup, in whatever order. */
  ghost predicate Lists(sc: Backup.Scene, targets: seq<Path>, entries: seq<Path>) {
    forall q :: q in entries <==> q in Backup.Members(sc, targets)
  }

  lemma EntryAccepted(sc: Backup.Scene, targets: seq<Path>, quote: Quote, q: Path)
    requires Nameable(sc, targets) && q in Backup.Members(sc, targets)
    ensures q in sc.state && Judge(Line(quote, sc.state, q)).Top?
  {
    RoundTrip.MembersArePlain(sc, targets, q);
    Backup.MembersUnder(sc, targets, q);
    var t :| t in targets && q in Backup.TargetMembers(sc, t);
    assert t <= q && t[0] == q[0] && AllOrdinary(q);
    MemberAccepted(quote, sc.state, q);
  }

  lemma SomeEntry(sc: Backup.Scene, targets: seq<Path>, entries: seq<Path>)
    requires targets != [] && Lists(sc, targets, entries)
    ensures entries != []
  {
    var t := targets[0];
    Backup.MembersUnder(sc, targets, t);
    assert t in targets && t in Backup.TargetMembers(sc, t);
    assert t in entries;
  }

  /** The listing of every backup passes the restore's checks. */
  lemma BackupListingAccepted(sc: Backup.Scene, targets: seq<Path>, quote: Quote, entries: seq<Path>)
    requires Nameable(sc, targets) && Lists(sc, targets, entries)
    ensures forall q :: q in entries ==> q in sc.state
    ensures Accepted(Lines(quote, sc.state, entries))
  {
    forall q | q in entries
      ensures q in sc.state && Judge(Line(quote, sc.state, q)).Top?
    {
      EntryAccepted(sc, targets, quote, q);
    }
    var lines := Lines(quote, sc.state, entries);
    forall i | 0 <= i < |lines|
      ensures !Judge(lines[i]).Bad?
    {
      assert i < |entries| ==> entries[i] in entries;
    }
    SomeEntry(sc, targets, entries);
    assert lines[0] == Line(quote, sc.state, entries[0]) && entries[0] in entries && lines[0] in lines;
  }

  /** Which backups open again: exactly those whose links all pass. So one that opens holds a link
      that leads outside exactly when it holds one that climbs out, and when every target is in
      normal form a backup opens exactly when no link it holds leads outside the mineral. */
  lemma BackupOpens(sc: Backup.Scene, targets: seq<Path>, implied: Mode, quote: Quote, entries: seq<Path>,
                    stateDir: Path)
    requires Nameable(sc, targets) && Lists(sc, targets, entries)
    ensures forall q :: q in entries ==> q in sc.state
    ensures var members := Backup.Members(sc, targets);
      var snap := RoundTrip.Snapshot(sc, targets, implied);
      var opens := Sound(Sealed(true, Lines(quote, sc.state, entries), snap), stateDir);
      && (opens <==> MembersPass(sc.state, members, stateDir))
      && (ProperDir(stateDir) ==>
            && (opens <==> MembersInsideOrClimbing(sc.state, members, stateDir))
            && (opens ==> (MembersInside(sc.state, members, stateDir) <==> !MembersClimb(sc.state, members, stateDir)))
            && (MembersStraight(sc.state, members) ==> (opens <==> MembersInside(sc.state, members, stateDir))))
  {
    var snap := RoundTrip.Snapshot(sc, targets, implied);
    BackupListingAccepted(sc, targets, quote, entries);
    forall q | q != []
      ensures q in snap && snap[q].Link? <==> ArchivedLink(sc.state, Backup.Members(sc, targets), q)
    {
      SnapshotLinks(sc, targets, implied, q);
    }
    if ProperDir(stateDir) {
      MembersTest(sc.state, Backup.Members(sc, targets), stateDir);
    }
  }

  /** The links of an unpacked backup are the links it archived. */
  lemma SnapshotLinks(sc: Backup.Scene, targets: seq<Path>, implied: Mode, q: Path)
    requires RoundTrip.Archivable(sc, targets)
    ensures var snap := RoundTrip.Snapshot(sc, targets, implied);
      q in snap && snap[q].Link? <==> (q in Backup.Members(sc, targets) && q in sc.state && sc.state[q].Link?)
    ensures var snap := RoundTrip.Snapshot(sc, targets, implied);
      q in snap && snap[q].Link? ==> snap[q] == sc.state[q]
  {
    if q in Backup.Members(sc, targets) {
      RoundTrip.MembersArePlain(sc, targets, q);
    }
  }

  // ---------------------------------------------------------------- one link decides

  const FOLDER: Path := ["secrets"]
  const LINK: Path := ["secrets", "link"]

  /** A mineral with one target and one link in it. */
  function OneLink(target: string): Backup.Scene {
    Backup.Scene(map[[] := Dir(OWNER), FOLDER := Dir(OWNER), LINK := Link(target)], {}, Backup.Policy({}, {}, {}))
  }

  lemma OneLinkTree(target: string)
    ensures var t := OneLink(target).state;
      && WellFormed(t) && Named(t) && LINK[1] in Names(t, FOLDER)
      && forall q :: q in t && q != [] && t[q].Link? <==> q == LINK
  {
    assert Parent(LINK) == FOLDER && Parent(FOLDER) == [];
    assert LINK[1] == "link";
  }

  lemma NothingBarred(sc: Backup.Scene, dir: Path, q: Path)
    requires sc.policy == Backup.Policy({}, {}, {})
    ensures !Backup.Barred(sc, dir, q)
  {
  }

  /** A link right in a target is archived when the policy leaves nothing out and git has no file. */
  lemma ChildArchived(sc: Backup.Scene, dir: Path, n: Name)
    requires sc.policy == Backup.Policy({}, {}, {}) && sc.tracked == {}
    requires IsDir(sc.state, dir) && dir + [n] in sc.state && sc.state[dir + [n]].Link?
    ensures dir + [n] in Backup.Members(sc, [dir])
  {
    var q := dir + [n];
    NothingBarred(sc, dir, q);
    assert dir < q && q[|dir|] == n && n in Names(sc.state, dir);
    assert dir in [dir] && q in Backup.TargetMembers(sc, dir);
    Backup.MembersUnder(sc, [dir], q);
  }

  lemma FolderIsPlain()
    ensures FOLDER[0] !in Restore.NEVER_FROM_SNAPSHOT && !Drive(FOLDER[0])
  {
    assert FOLDER[0][0] == 's' && FOLDER[0][1] == 'e';
  }

  lemma OneLinkNameable(target: string)
    ensures Nameable(OneLink(target), [FOLDER])
  {
    OneLinkTree(target);
    FolderIsPlain();
    assert OneLink(target).state[FOLDER] == Dir(OWNER);
  }

  lemma OneLinkArchived(target: string, q: Path)
    ensures var sc := OneLink(target); ArchivedLink(sc.state, Backup.Members(sc, [FOLDER]), q) <==> q == LINK
  {
    OneLinkTree(target);
    assert FOLDER + ["link"] == LINK;
    ChildArchived(OneLink(target), FOLDER, "link");
  }

  /** Its backup passes exactly when the link does, and keeps inside exactly when the link does. */
  lemma OneLinkBackup(target: string, stateDir: Path)
    ensures var sc := OneLink(target); var members := Backup.Members(sc, [FOLDER]);
      && (MembersPass(sc.state, members, stateDir) <==> Passes(stateDir, LINK, target))
      && (MembersInside(sc.state, members, stateDir) <==> LeadsInside(stateDir, LINK, target))
  {
    var sc := OneLink(target);
    assert sc.state[LINK].target == target;
    forall q
      ensures ArchivedLink(sc.state, Backup.Members(sc, [FOLDER]), q) <==> q == LINK
    {
      OneLinkArchived(target, q);
    }
  }

  /** So some backups with a link that leads outside are refused, some open, and some are refused
      though every link they hold leads inside. */
  lemma OneLinkDecides(stateDir: Path)
    requires ProperDir(stateDir)
    ensures var out := OneLink("/"); var members := Backup.Members(out, [FOLDER]);
      Nameable(out, [FOLDER])
      && !MembersPass(out.state, members, stateDir) && !MembersInside(out.state, members, stateDir)
    ensures var up := OneLink(Absolute(stateDir) + "/.."); var members := Backup.Members(up, [FOLDER]);
      Nameable(up, [FOLDER])
      && MembersPass(up.state, members, stateDir) && !MembersInside(up.state, members, stateDir)
    ensures var twice := OneLink("/" + Absolute(stateDir)); var members := Backup.Members(twice, [FOLDER]);
      Nameable(twice, [FOLDER])
      && !MembersPass(twice.state, members, stateDir) && MembersInside(twice.state, members, stateDir)
  {
    assert AllOrdinary(LINK);
    var up, twice := Absolute(stateDir) + "/..", "/" + Absolute(stateDir);
    OneLinkNameable("/");
    OneLinkBackup("/", stateDir);
    RootRefused(stateDir, LINK);
    OneLinkNameable(up);
    OneLinkBackup(up, stateDir);
    PassesOutside(stateDir, LINK);
    OneLinkNameable(twice);
    OneLinkBackup(twice, stateDir);
    RefusedInside(stateDir, LINK);
  }
}
