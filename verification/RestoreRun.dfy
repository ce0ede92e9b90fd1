/** A restore from end to end: the order of its steps, and what each ending leaves. */
module RestoreRun {
  import opened Bytes
  import opened FileTree
  import opened LinkPaths
  import Backup
  import GitRestore
  import OpenPack
  import OpenSnapshot
  import MovePack
  import Restore
  import RoundTrip

  // ---------------------------------------------------------------- the passphrase on file

  const SECRETS: Path := ["secrets"]
  const PASSPHRASE: Path := ["secrets", "backup_passphrase"]
  const ESCROWED: Path := ["secrets", "backup_passphrase.escrowed"]

  const PRIVATE: Mode := 0x180

  /** writeFileSync: a file that is there keeps its mode, a new one gets the one given. */
  function WriteFile(t: Tree, p: Path, bytes: seq<Byte>, newMode: Mode): Tree {
    t[p := File(if p in t && t[p].File? then t[p].mode else newMode, bytes)]
  }

  /** Could writeFileSync write here? */
  predicate Writable(t: Tree, p: Path) {
    p in t ==> t[p].File?
  }

  /** The passphrase that opened the snapshot goes on file, unless it is there already, and is
      marked as held by its member. The tree as far as this gets, and whether it gets to the end;
      `readAs` is what a file's bytes read as, without white space at the ends. */
  function Kept(t: Tree, pass: string, readAs: seq<Byte> -> string): (Tree, bool) {
    if SECRETS in t && !t[SECRETS].Dir? then (t, false) else
    var t1 := if SECRETS in t then t else t[SECRETS := Dir(OWNER)];
    if !Writable(t1, PASSPHRASE) then (t1, false) else
    var had := if PASSPHRASE in t1 then readAs(t1[PASSPHRASE].bytes) else "";
    var t2 := if had == pass then t1 else WriteFile(t1, PASSPHRASE, Utf8(pass + "\n"), PRIVATE);
    if !Writable(t2, ESCROWED) then (t2, false) else (WriteFile(t2, ESCROWED, [], PRIVATE), true)
  }

  /** Afterwards the passphrase on file is the one that opened the snapshot, and it is marked as
      held. */
  lemma PassphraseIsKept(t: Tree, pass: string, readAs: seq<Byte> -> string)
    requires WellFormed(t) && pass != "" && readAs(Utf8(pass + "\n")) == pass
    ensures var k := Kept(t, pass, readAs);
      && WellFormed(k.0)
      && (k.1 ==> PASSPHRASE in k.0 && k.0[PASSPHRASE].File? && readAs(k.0[PASSPHRASE].bytes) == pass)
      && (k.1 ==> ESCROWED in k.0)
  {
    assert Parent(PASSPHRASE) == SECRETS && Parent(ESCROWED) == SECRETS && Parent(SECRETS) == [];
    assert PASSPHRASE[1] != ESCROWED[1];
    if SECRETS in t ==> t[SECRETS].Dir? {
      var t1 := if SECRETS in t then t else t[SECRETS := Dir(OWNER)];
      if SECRETS !in t {
        FolderMade(t, SECRETS);
      }
      if Writable(t1, PASSPHRASE) {
        var had := if PASSPHRASE in t1 then readAs(t1[PASSPHRASE].bytes) else "";
        var t2 := if had == pass then t1 else WriteFile(t1, PASSPHRASE, Utf8(pass + "\n"), PRIVATE);
        FileWritten(t1, PASSPHRASE, Utf8(pass + "\n"));
        if Writable(t2, ESCROWED) {
          FileWritten(t2, ESCROWED, []);
        }
      }
    }
  }

  lemma FolderMade(t: Tree, p: Path)
    requires WellFormed(t) && p != [] && IsDir(t, Parent(p)) && p !in t
    ensures WellFormed(t[p := Dir(OWNER)])
  {
    var u := t[p := Dir(OWNER)];
    forall q | q in u && q != []
      ensures IsDir(u, Parent(q))
    {
      assert q != p ==> IsDir(t, Parent(q));
    }
  }

  lemma FileWritten(t: Tree, p: Path, bytes: seq<Byte>)
    requires WellFormed(t) && p != [] && IsDir(t, Parent(p)) && Writable(t, p)
    ensures WellFormed(WriteFile(t, p, bytes, PRIVATE))
  {
    var u := WriteFile(t, p, bytes, PRIVATE);
    forall q | q in u && q != []
      ensures IsDir(u, Parent(q))
    {
      assert q != p ==> IsDir(t, Parent(q));
    }
  }

  /** Nothing stands where the passphrase, its mark and their folder go that is not a file, a file
      and a folder. */
  predicate Recordable(t: Tree) {
    && (["secrets"] in t ==> t[["secrets"]].Dir?)
    && (["secrets", "backup_passphrase"] in t ==> t[["secrets", "backup_passphrase"]].File?)
    && (["secrets", "backup_passphrase.escrowed"] in t ==> t[["secrets", "backup_passphrase.escrowed"]].File?)
  }

  /** When recording goes to its end, and what is then on file: the passphrase and a newline, unless
      what was there reads as the passphrase, and an empty mark; new files are private. */
  lemma RecordedIs(t: Tree, pass: string, readAs: seq<Byte> -> string)
    requires pass != ""
    ensures var k := Kept(t, pass, readAs); var at: Path := ["secrets", "backup_passphrase"];
      && (k.1 <==> Recordable(t))
      && (k.1 && ["secrets"] !in t ==> k.0[["secrets"]] == Dir(0x1C0))
      && (k.1 ==> Holds(t, k.0, ["secrets", "backup_passphrase.escrowed"], [], 0x180))
      && (k.1 ==> if at in t && readAs(t[at].bytes) == pass then at in k.0 && k.0[at] == t[at]
                  else Holds(t, k.0, at, Utf8(pass + "\n"), 0x180))
  {
    assert PASSPHRASE != ESCROWED && SECRETS != PASSPHRASE && SECRETS != ESCROWED by {
      assert PASSPHRASE[1] != ESCROWED[1] && |SECRETS| == 1;
    }
  }

  /** A regular file with these bytes, its mode kept where it was there and as given where not. */
  ghost predicate Holds(t: Tree, u: Tree, p: Path, bytes: seq<Byte>, newMode: Mode) {
    && p in u && u[p].File? && u[p].bytes == bytes
    && u[p].mode == if p in t && t[p].File? then t[p].mode else newMode
  }

  /** Nothing but these two files, and their folder if there was none, has changed. */
  lemma KeptElsewhere(t: Tree, pass: string, readAs: seq<Byte> -> string, q: Path)
    requires q !in {PASSPHRASE, ESCROWED}
    ensures var k := Kept(t, pass, readAs);
      (q in t ==> q in k.0 && k.0[q] == t[q]) && (q in k.0 && q !in t ==> q == SECRETS && k.0[q] == Dir(OWNER))
  {
  }

  // ---------------------------------------------------------------- the name on file

  const BOX_NAME: Path := ["box-name"]
  const PROFILE: Path := ["profile.yaml"]
  const GIT: Path := [".git"]

  /** What the last steps meet: the name asked for, if any; how the naming script cleans a name and
      edits the profile; the mode it gives a new file; and what is then left to commit. */
  datatype Naming = Naming(asked: string, clean: string -> string, edit: (string, seq<Byte>) -> seq<Byte>,
                           newMode: Mode, closing: Option<GitRestore.GitTree>)

  /** The name to keep: the one asked for, or the one on file; None where that cannot be read. */
  function NameOf(n: Naming, t: Tree, readAs: seq<Byte> -> string): Option<string> {
    if n.asked != "" then Some(n.asked)
    else if BOX_NAME !in t then Some("")
    else if t[BOX_NAME].File? then Some(readAs(t[BOX_NAME].bytes))
    else None
  }

  /** The naming script: both places where the name is kept, as far as it gets. */
  function Renamed(n: Naming, t: Tree, name: string): Tree {
    if name == "" || n.clean(name) == "" || !Writable(t, BOX_NAME) then t else
    var t1 := WriteFile(t, BOX_NAME, Utf8(n.clean(name)), n.newMode);
    if !Writable(t1, PROFILE) then t1 else
    WriteFile(t1, PROFILE, n.edit(n.clean(name), if PROFILE in t1 then t1[PROFILE].bytes else []), n.newMode)
  }

  function KeptName(n: Naming, t: Tree, readAs: seq<Byte> -> string): (Tree, bool) {
    var name := NameOf(n, t, readAs);
    if name.None? then (t, false) else (Renamed(n, t, name.value), true)
  }

  /** The name can be told: it is asked for, or nothing stands at box-name that is no file. */
  predicate Nameable(n: Naming, t: Tree) {
    n.asked != "" || (["box-name"] in t ==> t[["box-name"]].File?)
  }

  lemma NamedIs(n: Naming, t: Tree, readAs: seq<Byte> -> string)
    ensures var k := KeptName(n, t, readAs);
      && (k.1 <==> Nameable(n, t))
      && (!k.1 ==> k.0 == t)
      && (k.1 ==> k.0 == Renamed(n, t, if n.asked != "" then n.asked
                                       else if ["box-name"] in t then readAs(t[["box-name"]].bytes) else ""))
  {
  }

  /** Keeping the name changes nothing but the two files that hold it. */
  lemma NamedElsewhere(n: Naming, t: Tree, readAs: seq<Byte> -> string, q: Path)
    requires q !in {BOX_NAME, PROFILE}
    ensures var u := KeptName(n, t, readAs).0; (q in u <==> q in t) && (q in t ==> u[q] == t[q])
  {
  }

  /** One name, two files: the clean name is what box-name holds, and the profile is edited to it. */
  lemma RenamedFiles(n: Naming, t: Tree, name: string)
    requires n.clean(name) != "" && name != ""
    ensures var u := Renamed(n, t, name); var was := if ["profile.yaml"] in t then t[["profile.yaml"]] else File(0, []);
      if ["box-name"] in t && !t[["box-name"]].File? then u == t
      else
        && Holds(t, u, ["box-name"], Utf8(n.clean(name)), n.newMode)
        && (was.File? ==> Holds(t, u, ["profile.yaml"], n.edit(n.clean(name), was.bytes), n.newMode))
        && (!was.File? ==> u[["profile.yaml"]] == was)
  {
    assert BOX_NAME[0][0] == 'b' && PROFILE[0][0] == 'p';
  }

  // ---------------------------------------------------------------- the order of the steps

  /** What is restored beside the brain: a sealed snapshot with the passphrase given for it, or a pack. */
  datatype Source = Snapshot(sealed: OpenSnapshot.Sealed, pass: string) | Pack(files: seq<MovePack.PackFile>)

  /** What one restore is asked to do and what it meets: `checked`, the arguments and the old
      repository hold up; `covered`, .gitignore protects what must never be committed; `pending`,
      changes not yet committed; `checkedOut`, the disk once the restored brain is in place. */
  datatype Request = Request(stateDir: Path, checked: bool, target: Option<GitRestore.Commit>, source: Option<Source>,
                             dry: bool, covered: bool, pending: Option<GitRestore.GitTree>, checkedOut: Tree,
                             withoutTelegram: bool, dangling: set<Path>, readAs: seq<Byte> -> string,
                             naming: Naming)

  /** Stopped before anything changed, a dry run, failed on the way, or done. */
  datatype Outcome = Stopped | DryRun | Failed | Done

  ghost function Opening(source: Source, stateDir: Path): OpenSnapshot.Opened {
    match source
    case Snapshot(sealed, _) =>
      if OpenSnapshot.Sound(sealed, stateDir) then OpenSnapshot.Open(sealed.unpacked) else OpenSnapshot.Closed
    case Pack(files) => OpenPack.OpenedPack(files)
  }

  ghost predicate Meetable(q: Request) {
    && WellFormed(q.checkedOut)
    && (q.source.Some? && q.source.value.Snapshot? ==> Restore.Restorable(q.source.value.sealed.unpacked))
    && (q.source.Some? && Opening(q.source.value, q.stateDir).Open? ==>
          forall f :: f in q.dangling && f in Opening(q.source.value, q.stateDir).unpacked ==>
            Opening(q.source.value, q.stateDir).unpacked[f].Link?)
  }

  /** --without-telegram meets a folder where the old bot's file should be. */
  predicate Stuck(q: Request, unpacked: Tree) {
    q.withoutTelegram && exists f | f in Restore.TELEGRAM_FILES :: IsDir(unpacked, f)
  }

  /** Laying what was unpacked over the mineral, and then keeping the passphrase. */
  ghost function Laid(q: Request, unpacked: Tree, base: Tree): (Outcome, Tree)
    requires q.source.Some?
  {
    if Stuck(q, unpacked) then (Failed, base) else
    var after := Restore.Applied(base, Restore.LeftBehind(unpacked, q.withoutTelegram, q.dangling));
    match q.source.value
    case Pack(_) => (Done, after)
    case Snapshot(_, pass) =>
      var k := Kept(after, pass, q.readAs);
      (if k.1 then Done else Failed, k.0)
  }

  /** How a restore ends and what the disk is then. */
  ghost function Ends(q: Request, disk: Tree): (Outcome, Tree) {
    if !q.checked || (q.source.Some? && Opening(q.source.value, q.stateDir).Closed?) then (Stopped, disk)
    else if q.dry then (DryRun, disk)
    else if q.target.Some? && !q.covered then (Stopped, disk)
    else
      var base := if q.target.Some? then q.checkedOut else disk;
      Closing(q, if q.source.None? then (Done, base) else Laid(q, Opening(q.source.value, q.stateDir).unpacked, base))
  }

  /** What was laid, and then the name kept. */
  function Closing(q: Request, laid: (Outcome, Tree)): (Outcome, Tree) {
    if laid.0 != Done then laid else
    var k := KeptName(q.naming, laid.1, q.readAs);
    (if k.1 then Done else Failed, k.0)
  }

  /** Order is the safety: whatever does not open, and every dry run, leaves the disk as it was. */
  lemma NothingChangesUntilItOpens(q: Request, disk: Tree)
    ensures q.source.Some? && Opening(q.source.value, q.stateDir).Closed? ==> Ends(q, disk) == (Stopped, disk)
    ensures q.dry ==> Ends(q, disk).0 in {Stopped, DryRun}
    ensures Ends(q, disk).0 in {Stopped, DryRun} ==> Ends(q, disk).1 == disk
  {
    assert Closing(q, (Done, q.checkedOut)).0 in {Failed, Done} && Closing(q, (Done, disk)).0 in {Failed, Done};
    if q.source.Some? && Opening(q.source.value, q.stateDir).Open? {
      LaidEnds(q, Opening(q.source.value, q.stateDir).unpacked, if q.target.Some? then q.checkedOut else disk);
    }
  }

  /** How a restore ends, by what it meets. It stops before anything has changed when the arguments
      do not hold up, the source does not open, or .gitignore does not cover a brain it would lay;
      it is a dry run when asked for one; it is done when nothing stands in the way of the bot's
      files, the passphrase or the name; and otherwise it fails on the way. */
  lemma EndsIs(q: Request, disk: Tree)
    ensures var o := Ends(q, disk).0;
      var opens := q.source.Some? ==> Opening(q.source.value, q.stateDir).Open?;
      && (o == Stopped <==> !q.checked || !opens || (!q.dry && q.target.Some? && !q.covered))
      && (o == DryRun <==> q.checked && opens && q.dry)
      && (o == Done <==> q.checked && opens && !q.dry && (q.target.Some? ==> q.covered)
                         && Lays(q, if q.target.Some? then q.checkedOut else disk))
  {
    var base := if q.target.Some? then q.checkedOut else disk;
    if q.source.None? {
      NamedIs(q.naming, base, q.readAs);
    } else if Opening(q.source.value, q.stateDir).Open? {
      LaysIs(q, Opening(q.source.value, q.stateDir).unpacked, base);
    }
  }

  /** Nothing stands in the way, step by step. */
  ghost predicate Lays(q: Request, base: Tree) {
    if q.source.None? then Nameable(q.naming, base)
    else Opening(q.source.value, q.stateDir).Open? && LaysOver(q, Opening(q.source.value, q.stateDir).unpacked, base)
  }

  ghost predicate LaysOver(q: Request, unpacked: Tree, base: Tree)
    requires q.source.Some?
  {
    var after := Restore.Applied(base, Restore.LeftBehind(unpacked, q.withoutTelegram, q.dangling));
    && !(q.withoutTelegram && (|| IsDir(unpacked, ["secrets", "telegram_bot_token"])
                               || IsDir(unpacked, ["secrets", "telegram_chat_id"])))
    && match q.source.value
       case Pack(_) => Nameable(q.naming, after)
       case Snapshot(_, pass) => Recordable(after) && Nameable(q.naming, Kept(after, pass, q.readAs).0)
  }

  lemma LaysIs(q: Request, unpacked: Tree, base: Tree)
    requires q.source.Some?
    ensures Closing(q, Laid(q, unpacked, base)).0 == Done <==> LaysOver(q, unpacked, base)
  {
    var after := Restore.Applied(base, Restore.LeftBehind(unpacked, q.withoutTelegram, q.dangling));
    if q.source.value.Snapshot? {
      RecordableIs(after, q.source.value.pass, q.readAs);
      NamedIs(q.naming, Kept(after, q.source.value.pass, q.readAs).0, q.readAs);
    } else {
      NamedIs(q.naming, after, q.readAs);
    }
    StuckIs(q, unpacked);
  }

  lemma StuckIs(q: Request, unpacked: Tree)
    ensures Stuck(q, unpacked) ==> q.withoutTelegram
    ensures q.withoutTelegram ==>
      (Stuck(q, unpacked)
       <==> IsDir(unpacked, ["secrets", "telegram_bot_token"]) || IsDir(unpacked, ["secrets", "telegram_chat_id"]))
  {
  }

  lemma RecordableIs(t: Tree, pass: string, readAs: seq<Byte> -> string)
    ensures Kept(t, pass, readAs).1 <==> Recordable(t)
  {
    assert PASSPHRASE[1] != ESCROWED[1] && |SECRETS| == 1;
  }

  /** The last commit is made exactly where there is a repository and something left to commit. */
  lemma ClosedIs(head: Option<GitRestore.Commit>, n: Naming, disk: Tree)
    ensures var h := Closed(head, n, disk);
      if [".git"] in disk && n.closing.Some?
      then h.Some? && h.value.tree == n.closing.value
           && h.value.parents == (if head.Some? then [head.value] else [])
      else h == head
  {
  }

  lemma LaidEnds(q: Request, unpacked: Tree, base: Tree)
    requires q.source.Some?
    ensures Laid(q, unpacked, base).0 in {Failed, Done}
    ensures Closing(q, Laid(q, unpacked, base)).0 in {Failed, Done}
  {
  }

  /** A restore of a backup and nothing else, not held up by anything but the backup itself. */
  ghost predicate RestoresBackup(q: Request, sc: Backup.Scene, targets: seq<Path>, implied: Mode,
                                 quote: OpenSnapshot.Quote, entries: seq<Path>) {
    && OpenSnapshot.Nameable(sc, targets) && OpenSnapshot.Lists(sc, targets, entries)
    && (forall e :: e in entries ==> e in sc.state)
    && q.checked && !q.dry && !q.withoutTelegram && (q.target.Some? ==> q.covered)
    && q.source.Some? && q.source.value.Snapshot?
    && q.source.value.sealed == OpenSnapshot.Sealed(true,
         OpenSnapshot.Lines(quote, sc.state, entries), RoundTrip.Snapshot(sc, targets, implied))
  }

  /** From a dead mineral to a new one, all steps together. If a link it holds does not pass the
      test, the backup is refused and nothing changes. Otherwise everything under a target is back
      with its bytes, owner bits only, unless git tracked it, the policy excluded it, or it is one of
      the four files that record the passphrase and the name. */
  lemma BackupRestores(q: Request, sc: Backup.Scene, targets: seq<Path>, implied: Mode, quote: OpenSnapshot.Quote,
                       entries: seq<Path>, disk: Tree, t: Path, p: Path)
    requires RestoresBackup(q, sc, targets, implied, quote, entries)
    requires WellFormed(disk) && WellFormed(q.checkedOut)
    requires t in targets && t <= p && p in sc.state && !sc.state[p].Special?
    requires p !in {PASSPHRASE, ESCROWED, BOX_NAME, PROFILE}
    ensures var e := Ends(q, disk);
      if !OpenSnapshot.MembersPass(sc.state, Backup.Members(sc, targets), q.stateDir) then e == (Stopped, disk)
      else e.0 != Stopped
           && (RoundTrip.Due(sc, t, p) ==> p in e.1 && Restore.OwnerOnly(e.1[p], sc.state[p]))
  {
    var snap := RoundTrip.Snapshot(sc, targets, implied);
    BackupOpening(q, sc, targets, implied, quote, entries);
    if OpenSnapshot.MembersPass(sc.state, Backup.Members(sc, targets), q.stateDir) {
      OpenedEnds(q, snap, disk, p);
      RoundTrip.OldStateComesBack(sc, targets, implied, if q.target.Some? then q.checkedOut else disk, t, p);
    }
  }

  /** A backup opens to what it archived when its links pass. */
  lemma BackupOpening(q: Request, sc: Backup.Scene, targets: seq<Path>, implied: Mode, quote: OpenSnapshot.Quote,
                      entries: seq<Path>)
    requires RestoresBackup(q, sc, targets, implied, quote, entries)
    ensures Opening(q.source.value, q.stateDir)
         == if OpenSnapshot.MembersPass(sc.state, Backup.Members(sc, targets), q.stateDir)
            then OpenSnapshot.Open(RoundTrip.Snapshot(sc, targets, implied)) else OpenSnapshot.Closed
  {
    OpenSnapshot.BackupOpens(sc, targets, implied, quote, entries, q.stateDir);
  }

  /** Which backups are refused, by where their links lead: those with a link that leads outside,
      climbing out excepted, or inside by a roundabout text. With every target in normal form they
      are those with a link that leads outside. */
  lemma BackupRefused(q: Request, sc: Backup.Scene, targets: seq<Path>, implied: Mode, quote: OpenSnapshot.Quote,
                      entries: seq<Path>, disk: Tree)
    requires RestoresBackup(q, sc, targets, implied, quote, entries) && ProperDir(q.stateDir)
    ensures var members := Backup.Members(sc, targets); var refused := Ends(q, disk).0 == Stopped;
      && (refused <==> !OpenSnapshot.MembersInsideOrClimbing(sc.state, members, q.stateDir))
      && (OpenSnapshot.MembersStraight(sc.state, members) ==>
            (refused <==> !OpenSnapshot.MembersInside(sc.state, members, q.stateDir)))
  {
    BackupOpening(q, sc, targets, implied, quote, entries);
    OpenSnapshot.MembersTest(sc.state, Backup.Members(sc, targets), q.stateDir);
    if OpenSnapshot.MembersPass(sc.state, Backup.Members(sc, targets), q.stateDir) {
      OpenedGoesOn(q, RoundTrip.Snapshot(sc, targets, implied), disk);
    }
  }

  lemma ClosingElsewhere(q: Request, laid: (Outcome, Tree), p: Path)
    requires p !in {BOX_NAME, PROFILE} && p in laid.1
    ensures p in Closing(q, laid).1 && Closing(q, laid).1[p] == laid.1[p]
  {
    NamedElsewhere(q.naming, laid.1, q.readAs, p);
  }

  lemma LaidElsewhere(q: Request, unpacked: Tree, base: Tree, p: Path)
    requires q.source.Some? && q.source.value.Snapshot? && !q.withoutTelegram
    requires p !in {PASSPHRASE, ESCROWED} && p in Restore.Applied(base, unpacked)
    ensures p in Laid(q, unpacked, base).1 && Laid(q, unpacked, base).1[p] == Restore.Applied(base, unpacked)[p]
  {
    KeptElsewhere(Restore.Applied(base, unpacked), q.source.value.pass, q.readAs, p);
  }

  /** A snapshot that opened is laid down. */
  lemma OpenedGoesOn(q: Request, snap: Tree, disk: Tree)
    requires q.checked && !q.dry && (q.target.Some? ==> q.covered)
    requires q.source.Some? && Opening(q.source.value, q.stateDir) == OpenSnapshot.Open(snap)
    ensures Ends(q, disk) == Closing(q, Laid(q, snap, if q.target.Some? then q.checkedOut else disk))
    ensures Ends(q, disk).0 != Stopped
  {
    LaidEnds(q, snap, if q.target.Some? then q.checkedOut else disk);
  }

  /** And what is applied is there in the end. */
  lemma OpenedEnds(q: Request, snap: Tree, disk: Tree, p: Path)
    requires q.checked && !q.dry && !q.withoutTelegram && (q.target.Some? ==> q.covered)
    requires q.source.Some? && q.source.value.Snapshot? && p !in {PASSPHRASE, ESCROWED, BOX_NAME, PROFILE}
    requires Opening(q.source.value, q.stateDir) == OpenSnapshot.Open(snap)
    ensures Ends(q, disk).0 != Stopped
    ensures var after := Restore.Applied(if q.target.Some? then q.checkedOut else disk, snap);
      p in after ==> p in Ends(q, disk).1 && Ends(q, disk).1[p] == after[p]
  {
    var base := if q.target.Some? then q.checkedOut else disk;
    OpenedGoesOn(q, snap, disk);
    if p in Restore.Applied(base, snap) {
      LaidElsewhere(q, snap, base, p);
      ClosingElsewhere(q, Laid(q, snap, base), p);
    }
  }

  /** The mineral keeps its own name, or gets the one asked for: what was on file when the restored
      brain was in place is on file in the end, in both places, whatever profile a snapshot laid. */
  lemma KeepsName(q: Request, disk: Tree)
    requires Ends(q, disk).0 == Done && !q.dry
    requires q.source.Some? ==> ["box-name"] !in Opening(q.source.value, q.stateDir).unpacked
    ensures
      var base := if q.target.Some? then q.checkedOut else disk;
      var e := Ends(q, disk).1;
      var name := if q.naming.asked != "" then q.naming.asked
                  else if ["box-name"] in base && base[["box-name"]].File? then q.readAs(base[["box-name"]].bytes)
                  else "";
      var clean := q.naming.clean(name);
      && (q.naming.asked == "" && ["box-name"] in base ==> base[["box-name"]].File?)
      && (name != "" && clean != "" && (["box-name"] in base ==> base[["box-name"]].File?) ==>
        && ["box-name"] in e && e[["box-name"]].File? && e[["box-name"]].bytes == Utf8(clean)
        && ["profile.yaml"] in e
        && (e[["profile.yaml"]].File? ==> exists text :: e[["profile.yaml"]].bytes == q.naming.edit(clean, text)))
  {
    var base := if q.target.Some? then q.checkedOut else disk;
    var laid := if q.source.None? then (Done, base) else Laid(q, Opening(q.source.value, q.stateDir).unpacked, base);
    if q.source.Some? {
      NameIsLeft(q, Opening(q.source.value, q.stateDir).unpacked, base);
    }
    NameInPlace(q.naming, laid.1, q.readAs);
  }

  /** Where a name could be kept, both files carry it. */
  lemma NameInPlace(n: Naming, t: Tree, readAs: seq<Byte> -> string)
    requires KeptName(n, t, readAs).1
    ensures n.asked == "" && ["box-name"] in t ==> t[["box-name"]].File?
    ensures var e := KeptName(n, t, readAs).0;
      var name := if n.asked != "" then n.asked else if ["box-name"] in t then readAs(t[["box-name"]].bytes) else "";
      name != "" && n.clean(name) != "" && (["box-name"] in t ==> t[["box-name"]].File?) ==>
        && ["box-name"] in e && e[["box-name"]].File? && e[["box-name"]].bytes == Utf8(n.clean(name))
        && ["profile.yaml"] in e
        && (e[["profile.yaml"]].File? ==> exists text :: e[["profile.yaml"]].bytes == n.edit(n.clean(name), text))
  {
    var name := NameOf(n, t, readAs);
    if name.value != "" && n.clean(name.value) != "" {
      RenamedFiles(n, t, name.value);
    }
  }

  lemma AppliedLeaves(dst: Tree, src: Tree, n: Name)
    requires [n] !in src
    ensures var t := Restore.Applied(dst, src); ([n] in t <==> [n] in dst) && ([n] in dst ==> t[[n]] == dst[[n]])
  {
    assert [] + [n] == [n] && n !in Names(src, []);
  }

  /** Laying a snapshot that does not hold the name leaves it as it is. */
  lemma NameIsLeft(q: Request, unpacked: Tree, base: Tree)
    requires q.source.Some? && BOX_NAME !in unpacked && Laid(q, unpacked, base).0 == Done
    ensures var t := Laid(q, unpacked, base).1;
      (BOX_NAME in t <==> BOX_NAME in base) && (BOX_NAME in base ==> t[BOX_NAME] == base[BOX_NAME])
  {
    var src := Restore.LeftBehind(unpacked, q.withoutTelegram, q.dangling);
    var after := Restore.Applied(base, src);
    AppliedLeaves(base, src, BOX_NAME[0]);
    assert BOX_NAME == [BOX_NAME[0]] && |BOX_NAME| != |PASSPHRASE|;
    if q.source.value.Snapshot? {
      KeptElsewhere(after, q.source.value.pass, q.readAs, BOX_NAME);
    }
  }

  /** The head once what is left has been committed, where there is a repository. */
  function Closed(head: Option<GitRestore.Commit>, n: Naming, disk: Tree): Option<GitRestore.Commit> {
    if GIT in disk && n.closing.Some?
    then Some(GitRestore.Commit(n.closing.value, if head.Some? then [head.value] else []))
    else head
  }

  /** The last commit loses nothing: what the brain reached, the head reaches. */
  lemma ClosedReaches(brain: GitRestore.Commit, n: Naming, disk: Tree, a: GitRestore.Commit)
    requires GitRestore.Reaches(brain, a)
    ensures Closed(Some(brain), n, disk).Some? && GitRestore.Reaches(Closed(Some(brain), n, disk).value, a)
  {
    assert n.closing.Some? ==> GitRestore.Commit(n.closing.value, [brain]).parents[0] == brain;
  }

  class Mineral {
    var head: Option<GitRestore.Commit>
    const disk: Restore.Disk

    constructor (h: Option<GitRestore.Commit>, d: Restore.Disk)
      ensures head == h && disk == d
    {
      head, disk := h, d;
    }

    /** main: open the snapshot before anything changes, then the brain, then the snapshot, then
        the name and one last commit. `brain` is the head that step 3 leaves. */
    method Run(q: Request, never: Path -> bool) returns (outcome: Outcome, ghost brain: Option<GitRestore.Commit>)
      requires Meetable(q) && WellFormed(disk.nodes)
      modifies this, disk
      ensures (outcome, disk.nodes) == Ends(q, old(disk.nodes))
      ensures outcome in {Stopped, DryRun} || q.target.None? ==> brain == old(head)
      ensures outcome in {Failed, Done} && q.target.Some? ==>
        head.Some? && GitRestore.Reaches(head.value, q.target.value)
        && (old(head).Some? ==> GitRestore.Reaches(head.value, old(head).value))
      ensures outcome in {Failed, Done} && q.target.Some? ==>
        brain.Some? && GitRestore.IsRestored(brain.value.tree,
          if q.pending.Some? then q.pending else if old(head).Some? then Some(old(head).value.tree) else None,
          q.target.value.tree, never)
      ensures head == if outcome == Done then Closed(brain, q.naming, disk.nodes) else brain
    {
      NothingChangesUntilItOpens(q, disk.nodes);
      brain := head;
      if !q.checked {
        return Stopped, head;
      }
      var unpacked := MovePack.EMPTY;
      if q.source.Some? {
        var o := Open(q.source.value, q.stateDir);
        if o.Closed? {
          return Stopped, head;
        }
        unpacked := o.unpacked;
      }
      if q.dry {
        return DryRun, head;
      }
      if q.target.Some? {
        if !q.covered {
          return Stopped, head;
        }
        RestoreBrain(q.target.value, q.pending, never);
        disk.nodes := q.checkedOut;
      }
      brain := head;
      outcome := Done;
      if q.source.Some? {
        outcome := LayDown(q, unpacked);
      }
      if outcome == Done {
        outcome := KeepName(q);
        if q.target.Some? && outcome == Done {
          ClosedReaches(brain.value, q.naming, disk.nodes, q.target.value);
          if old(head).Some? {
            ClosedReaches(brain.value, q.naming, disk.nodes, old(head).value);
          }
        }
      }
    }

    /** Step 5: the name, and what is left to commit. */
    method KeepName(q: Request) returns (outcome: Outcome)
      modifies this`head, disk
      ensures (outcome, disk.nodes) == Closing(q, (Done, old(disk.nodes)))
      ensures head == if outcome == Done then Closed(old(head), q.naming, disk.nodes) else old(head)
    {
      var name := NameOf(q.naming, disk.nodes, q.readAs);
      if name.None? {
        return Failed;
      }
      SetName(q.naming, name.value);
      if GIT in disk.nodes && q.naming.closing.Some? {
        head := Some(GitRestore.Commit(q.naming.closing.value, if head.Some? then [head.value] else []));
      }
      outcome := Done;
    }

    method SetName(n: Naming, name: string)
      modifies disk
      ensures disk.nodes == Renamed(n, old(disk.nodes), name)
    {
      if name == "" || n.clean(name) == "" || (BOX_NAME in disk.nodes && !disk.nodes[BOX_NAME].File?) {
        return;
      }
      disk.nodes := WriteFile(disk.nodes, BOX_NAME, Utf8(n.clean(name)), n.newMode);
      if PROFILE in disk.nodes && !disk.nodes[PROFILE].File? {
        return;
      }
      var text := if PROFILE in disk.nodes then disk.nodes[PROFILE].bytes else [];
      disk.nodes := WriteFile(disk.nodes, PROFILE, n.edit(n.clean(name), text), n.newMode);
    }

    /** Step 2: the snapshot or the pack, opened and checked in a staging folder. */
    static method Open(source: Source, stateDir: Path) returns (o: OpenSnapshot.Opened)
      requires source.Snapshot? ==> Restore.Restorable(source.sealed.unpacked)
      ensures o == Opening(source, stateDir)
      ensures o.Open? ==> Restore.Restorable(o.unpacked)
    {
      match source
      case Snapshot(sealed, _) => o := OpenSnapshot.OpenSealed(sealed, stateDir);
      case Pack(files) =>
        o := OpenPack.Open(files);
        OpenPack.OpensTo(files);
    }

    /** Step 4: the unpacked snapshot over the mineral, and the passphrase on file. */
    method LayDown(q: Request, unpacked: Tree) returns (outcome: Outcome)
      requires q.source.Some? && Restore.Restorable(unpacked) && WellFormed(disk.nodes)
      requires forall f :: f in q.dangling && f in unpacked ==> unpacked[f].Link?
      modifies disk
      ensures (outcome, disk.nodes) == Laid(q, unpacked, old(disk.nodes))
    {
      var ok, _ := disk.ApplySnapshot(unpacked, q.withoutTelegram, q.dangling);
      if !ok {
        return Failed;
      }
      if q.source.value.Pack? {
        return Done;
      }
      var kept := KeepPassphrase(q.source.value.pass, q.readAs);
      return if kept then Done else Failed;
    }

    method KeepPassphrase(pass: string, readAs: seq<Byte> -> string) returns (ok: bool)
      modifies disk
      ensures (disk.nodes, ok) == Kept(old(disk.nodes), pass, readAs)
    {
      if SECRETS !in disk.nodes {
        disk.nodes := disk.nodes[SECRETS := Dir(OWNER)];
      } else if !disk.nodes[SECRETS].Dir? {
        return false;
      }
      if PASSPHRASE in disk.nodes && !disk.nodes[PASSPHRASE].File? {
        return false;
      }
      var had := if PASSPHRASE in disk.nodes then readAs(disk.nodes[PASSPHRASE].bytes) else "";
      if had != pass {
        disk.nodes := WriteFile(disk.nodes, PASSPHRASE, Utf8(pass + "\n"), PRIVATE);
      }
      if ESCROWED in disk.nodes && !disk.nodes[ESCROWED].File? {
        return false;
      }
      disk.nodes := WriteFile(disk.nodes, ESCROWED, [], PRIVATE);
      ok := true;
    }

    /** Step 3: commit what is pending, compose the restored tree, fast-forward to it. */
    method RestoreBrain(target: GitRestore.Commit, pending: Option<GitRestore.GitTree>, never: Path -> bool)
      modifies this`head
      ensures head.Some? && GitRestore.Reaches(head.value, target)
      ensures old(head).Some? ==> GitRestore.Reaches(head.value, old(head).value)
      ensures GitRestore.IsRestored(head.value.tree,
        if pending.Some? then pending else if old(head).Some? then Some(old(head).value.tree) else None,
        target.tree, never)
    {
      if pending.Some? {
        head := Some(GitRestore.Commit(pending.value, if head.Some? then [head.value] else []));
      }
      ghost var before := head;
      var c := GitRestore.RestoredCommit(head, target, never);
      head := Some(c);
      if before.None? {
        assert c.parents[0] == target && GitRestore.Reaches(target, target);
      } else {
        GitRestore.NothingIsLost(before.value, target, c, target);
        if old(head).Some? {
          assert pending.Some? ==> before.value.parents[0] == old(head).value;
          assert GitRestore.Reaches(before.value, old(head).value);
          GitRestore.NothingIsLost(before.value, target, c, old(head).value);
        }
      }
    }
  }
}
