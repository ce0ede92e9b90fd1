/** The nightly run: stage, verify, rename, commit, with any step failing or the process killed. */
module Nightly {
  import opened Bytes

  /** A JavaScript number as the cap arithmetic meets it. */
  datatype Number = NaN | Finite(value: real) | Infinite(positive: bool)

  const HARD_CAP: nat := 90_000_000
  const CIPHER_OVERHEAD: nat := 64

  predicate Falsy(x: Number) {
    x.NaN? || x == Finite(0.0)
  }

  function OrHardCap(x: Number): Number {
    if Falsy(x) then Finite(HARD_CAP as real) else x
  }

  function Min(a: Number, b: Number): Number {
    match (a, b)
    case (NaN, _) => NaN
    case (_, NaN) => NaN
    case (Infinite(pa), _) => if pa then b else a
    case (_, Infinite(pb)) => if pb then a else b
    case (Finite(x), Finite(y)) => if x <= y then a else b
  }

  /** What a committed snapshot may weigh, from policy.json and the environment. */
  function Cap(policy: Number, env: Number): Number {
    Min(Min(Finite(HARD_CAP as real), OrHardCap(policy)), OrHardCap(env))
  }

  predicate Exceeds(n: nat, cap: Number) {
    match cap
    case NaN => false
    case Infinite(positive) => !positive
    case Finite(v) => n as real > v
  }

  /** openssl enc -salt: a 16-byte header, then the text padded to whole blocks, one to sixteen
      bytes of padding (section 6.3 of RFC 5652). */
  function CipherSize(plain: nat): nat {
    16 + 16 * (plain / 16 + 1)
  }

  /** policy.json and the environment can only lower the cap, and the overhead allowed for the
      cipher covers what it adds: a snapshot that is not over the cap is under the hard one. */
  lemma UnderTheHardCap(tar: nat, policy: Number, env: Number)
    requires !Exceeds(tar + CIPHER_OVERHEAD, Cap(policy, env))
    ensures CipherSize(tar) <= HARD_CAP
  {
  }

  // ---------------------------------------------------------------- the files of one brain

  /** Where a snapshot may lie: backups/, backups/crads/ (adopted brains), .kernel/backups/. */
  datatype Slot = Out | Crads | Local

  /** Ciphertext, and whether it decrypts and unpacks to everything that went in. */
  datatype Blob = Blob(size: nat, restores: bool)

  datatype Commit = Commit(night: Night, snapshots: map<Slot, Blob>, staged: map<Slot, Blob>)

  datatype Files = Files(final: map<Slot, Blob>, staged: map<Slot, Blob>, commits: seq<Commit>)

  /** The step of a run that throws. */
  datatype Step = AtTar | AtPrepare | AtEncrypt | AtVerify | AtRename | AtDropLocal | AtStat | AtHeartbeat

  /** Everything outside the script that one run depends on: `partial` bytes are on disk at some
      moment of the encryption, `restores` says what the cipher wrote is good. */
  datatype Night = Night(adopted: bool, movingIn: bool, anyTarget: bool, policyCap: Number, envCap: Number,
                         tar: nat, partial: nat, restores: bool, gitWorks: bool, throws: Option<Step>)
  {
    function Home(): Slot {
      if adopted then Crads else Out
    }

    predicate OverCap() {
      Exceeds(tar + CIPHER_OVERHEAD, Cap(policyCap, envCap))
    }

    function Dest(): Slot {
      if OverCap() && !adopted then Local else Home()
    }

    predicate Commits() {
      !adopted && !OverCap() && !movingIn
    }

    predicate Throws(step: Step) {
      throws == Some(step)
    }
  }

  /** Is a number of bytes within a cap as it was given? No number at all, and zero, are no cap. */
  predicate Within(bytes: nat, cap: Number) {
    match cap
    case NaN => true
    case Infinite(positive) => positive
    case Finite(v) => v == 0.0 || bytes as real <= v
  }

  /** The archive, with 64 bytes for the cipher, is within 90 MB and both caps given. */
  predicate Fitting(n: Night) {
    n.tar + 64 <= 90_000_000 && Within(n.tar + 64, n.policyCap) && Within(n.tar + 64, n.envCap)
  }

  /** A night that may commit: on a brain of our own making, no move going on, and within the cap. */
  predicate MayCommit(n: Night) {
    !n.adopted && !n.movingIn && Fitting(n)
  }

  /** The snapshot of an adopted brain goes to backups/crads/, any other to backups/ when it fits and
      beside it when it does not. */
  function Place(n: Night): Slot {
    if n.adopted then Crads else if Fitting(n) then Out else Local
  }

  lemma NightIs(n: Night)
    ensures n.OverCap() <==> !Fitting(n)
    ensures n.Commits() <==> MayCommit(n)
    ensures n.Dest() == Place(n)
  {
    assert 90_000_000 as real == HARD_CAP as real;
  }

  /** Salted, padded to whole blocks: more than sixteen bytes of overhead and at most 32. */
  lemma CipherSizeIs(plain: nat)
    ensures CipherSize(plain) % 16 == 0 && plain + 17 <= CipherSize(plain) <= plain + 32
  {
  }

  // ---------------------------------------------------------------- one night, moment by moment

  function Writing(f: Files, n: Night): Files {
    var size := CipherSize(n.tar);
    f.(staged := f.staged[n.Dest() := Blob(if n.partial < size then n.partial else size, false)])
  }

  /** Killed while it writes, a night leaves a blob that does not restore, as long as it got, beside all else. */
  lemma WritingIs(f: Files, n: Night)
    ensures var g := Writing(f, n); var b := g.staged[Place(n)];
      && !b.restores && b.size <= n.partial && b.size <= CipherSize(n.tar) && b.size in {n.partial, CipherSize(n.tar)}
      && g == f.(staged := f.staged[Place(n) := b])
  {
    NightIs(n);
  }

  function Written(f: Files, n: Night): Files {
    f.(staged := f.staged[n.Dest() := Blob(CipherSize(n.tar), n.restores)])
  }

  function Renamed(f: Files, n: Night): Files
    requires n.Dest() in f.staged
  {
    f.(final := f.final[n.Dest() := f.staged[n.Dest()]], staged := f.staged - {n.Dest()})
  }

  function Superseded(f: Files, n: Night): Files {
    if n.Dest() == n.Home() then f.(final := f.final - {Local}) else f
  }

  /** `git add -- backups/` takes everything under backups/. */
  function Committed(f: Files, n: Night): Files {
    if n.Commits() && n.gitWorks
    then f.(commits := f.commits + [Commit(n, f.final - {Local}, f.staged - {Local})])
    else f
  }

  function Unstaged(f: Files, slot: Slot): Files {
    f.(staged := f.staged - {slot})
  }

  /** The catch path: drop what was staged at home, then what was staged locally. */
  function Cleanup(f: Files, n: Night): seq<Files> {
    [Unstaged(f, n.Home()), Unstaged(Unstaged(f, n.Home()), Local)]
  }

  /** Every state the brain's files pass through in one run that nobody kills. */
  function Moments(f: Files, n: Night): seq<Files> {
    [f] +
    if !n.anyTarget || n.Throws(AtTar) || n.Throws(AtPrepare) then Cleanup(f, n) else AfterTar(f, n)
  }

  function AfterTar(f: Files, n: Night): seq<Files> {
    [Writing(f, n)] +
    if n.Throws(AtEncrypt) then Cleanup(Writing(f, n), n) else AfterWrite(Written(f, n), n)
  }

  function AfterWrite(f: Files, n: Night): seq<Files>
    requires n.Dest() in f.staged
  {
    [f] +
    if !f.staged[n.Dest()].restores || n.Throws(AtVerify) || n.Throws(AtRename) then Cleanup(f, n)
    else AfterRename(Renamed(f, n), n)
  }

  function AfterRename(f: Files, n: Night): seq<Files> {
    [f] +
    if n.Throws(AtDropLocal) && n.Dest() == n.Home() then Cleanup(f, n) else AfterDrop(Superseded(f, n), n)
  }

  function AfterDrop(f: Files, n: Night): seq<Files> {
    [f] +
    if n.Throws(AtStat) then Cleanup(f, n)
    else [Committed(f, n)] + if n.Throws(AtHeartbeat) then Cleanup(Committed(f, n), n) else []
  }

  // ---------------------------------------------------------------- what holds at every moment

  /** The cap is on backups/ itself. What an adopted night leaves in backups/crads/ has none; a
      later night that is not adopted commits that too, whatever it weighs. */
  predicate SmallEnough(blobs: map<Slot, Blob>) {
    Out in blobs ==> blobs[Out].size <= HARD_CAP
  }

  predicate AllRestore(blobs: map<Slot, Blob>) {
    forall slot | slot in blobs :: blobs[slot].restores
  }

  /** A commit is by a night that is not adopted, not over the cap and not moving in; in backups/
      itself it holds a verified snapshot within the cap and nothing half-made. */
  predicate GoodCommit(c: Commit) {
    && MayCommit(c.night) && Out in c.snapshots && AllRestore(c.snapshots) && SmallEnough(c.snapshots)
    && Out !in c.staged && Local !in c.snapshots && Local !in c.staged
  }

  predicate Safe(f: Files) {
    && SmallEnough(f.final) && SmallEnough(f.staged)
    && AllRestore(f.final)
    && forall i | 0 <= i < |f.commits| :: GoodCommit(f.commits[i])
  }

  /** From one moment to the next: backups/ and backups/crads/ never lose a snapshot, every
      snapshot was there before or has just passed its verify, and history only grows, by what
      lies under backups/ at that moment. */
  predicate Keeps(f: Files, g: Files) {
    && (forall slot | slot in f.final && slot != Local :: slot in g.final)
    && (forall slot | slot in g.final :: (slot in f.final && f.final[slot] == g.final[slot])
                                         || (slot in f.staged && f.staged[slot] == g.final[slot]
                                             && g.final[slot].restores))
    && (g.commits == f.commits || Recorded(f, g))
  }

  predicate Recorded(f: Files, g: Files) {
    && |g.commits| == |f.commits| + 1 && f.commits <= g.commits
    && var c := g.commits[|f.commits|]; c.snapshots == g.final - {Local} && c.staged == g.staged - {Local}
  }

  /** A run of moments, each safe and each kept by the next. */
  ghost predicate Sound(moments: seq<Files>) {
    && moments != []
    && (forall i :: 0 <= i < |moments| ==> Safe(moments[i]))
    && (forall i :: 0 < i < |moments| ==> Keeps(moments[i - 1], moments[i]))
  }

  lemma SoundStep(f: Files, rest: seq<Files>)
    requires Safe(f) && Sound(rest) && Keeps(f, rest[0])
    ensures Sound([f] + rest)
  {
    var all := [f] + rest;
    forall i | 0 < i < |all|
      ensures Keeps(all[i - 1], all[i])
    {
      assert all[i] == rest[i - 1];
      assert i > 1 ==> all[i - 1] == rest[i - 2];
    }
  }

  lemma CleanupSound(f: Files, n: Night)
    requires Safe(f)
    ensures Sound([f] + Cleanup(f, n))
  {
    var c := Cleanup(f, n);
    assert Sound([c[1]]);
    SoundStep(c[0], [c[1]]);
    assert c == [c[0]] + [c[1]];
    SoundStep(f, c);
  }

  /** Whatever throws, every moment of a night is safe and nothing already backed up is lost. */
  lemma NightSound(f: Files, n: Night)
    requires Safe(f)
    ensures Sound(Moments(f, n))
  {
    if !n.anyTarget || n.Throws(AtTar) || n.Throws(AtPrepare) {
      CleanupSound(f, n);
    } else {
      UnderCapSound(f, n);
      SoundStep(f, AfterTar(f, n));
    }
  }

  lemma UnderCapSound(f: Files, n: Night)
    requires Safe(f)
    ensures Sound(AfterTar(f, n)) && AfterTar(f, n)[0] == Writing(f, n)
  {
    if n.Dest() == Out {
      UnderTheHardCap(n.tar, n.policyCap, n.envCap);
    }
    assert Safe(Writing(f, n)) && Safe(Written(f, n));
    if n.Throws(AtEncrypt) {
      CleanupSound(Writing(f, n), n);
    } else {
      WriteSound(Written(f, n), n);
      SoundStep(Writing(f, n), AfterWrite(Written(f, n), n));
    }
  }

  lemma WriteSound(f: Files, n: Night)
    requires Safe(f) && n.Dest() in f.staged
    ensures Sound(AfterWrite(f, n)) && AfterWrite(f, n)[0] == f
  {
    if !f.staged[n.Dest()].restores || n.Throws(AtVerify) || n.Throws(AtRename) {
      CleanupSound(f, n);
    } else {
      RenameSound(Renamed(f, n), n);
      SoundStep(f, AfterRename(Renamed(f, n), n));
    }
  }

  lemma RenameSound(f: Files, n: Night)
    requires Safe(f) && n.Dest() in f.final && n.Dest() !in f.staged
    ensures Sound(AfterRename(f, n)) && AfterRename(f, n)[0] == f
  {
    if n.Throws(AtDropLocal) && n.Dest() == n.Home() {
      CleanupSound(f, n);
    } else {
      DropSound(Superseded(f, n), n);
      SoundStep(f, AfterDrop(Superseded(f, n), n));
    }
  }

  lemma DropSound(f: Files, n: Night)
    requires Safe(f) && n.Dest() in f.final && n.Dest() !in f.staged
    ensures Sound(AfterDrop(f, n)) && AfterDrop(f, n)[0] == f
  {
    if n.Throws(AtStat) {
      CleanupSound(f, n);
    } else {
      var g := Committed(f, n);
      NightIs(n);
      if n.Throws(AtHeartbeat) {
        CleanupSound(g, n);
        SoundStep(f, [g] + Cleanup(g, n));
        assert [f] + ([g] + Cleanup(g, n)) == AfterDrop(f, n);
      } else {
        assert Sound([g]);
        SoundStep(f, [g]);
        assert [f] + [g] == AfterDrop(f, n);
      }
    }
  }

  // ---------------------------------------------------------------- every sequence of nights

  /** A night, and after how many of its moments the process is killed, if it lasts that long. */
  datatype Run = Run(night: Night, killedAfter: nat)

  /** Where a process killed after k effects leaves off. */
  function Left(moments: seq<Files>, k: nat): Files
    requires moments != []
  {
    moments[Stop(moments, k)]
  }

  function Stop(moments: seq<Files>, k: nat): nat
    requires moments != []
  {
    if k < |moments| then k else |moments| - 1
  }

  lemma LeftCons(x: Files, rest: seq<Files>, k: nat)
    requires rest != []
    ensures Left([x] + rest, k) == if k == 0 then x else Left(rest, k - 1)
  {
  }

  function Last(f: Files, r: Run): Files {
    Left(Moments(f, r.night), r.killedAfter)
  }

  function After(f: Files, runs: seq<Run>): Files {
    if runs == [] then f else Last(After(f, runs[..|runs| - 1]), runs[|runs| - 1])
  }

  lemma {:induction false} AfterIsSafe(f: Files, runs: seq<Run>)
    requires Safe(f)
    ensures Safe(After(f, runs))
  {
    if runs != [] {
      AfterIsSafe(f, runs[..|runs| - 1]);
      NightSound(After(f, runs[..|runs| - 1]), runs[|runs| - 1].night);
    }
  }

  /** Every intermediate state of every sequence of nights is safe: no snapshot in backups/,
      staged or final, is over the hard cap; final ones restore; every commit is a good one. */
  lemma EveryMomentIsSafe(f: Files, runs: seq<Run>, n: Night, i: nat)
    requires Safe(f) && i < |Moments(After(f, runs), n)|
    ensures Safe(Moments(After(f, runs), n)[i])
  {
    AfterIsSafe(f, runs);
    NightSound(After(f, runs), n);
  }

  lemma {:induction false} SoundKeeps(moments: seq<Files>, i: nat, j: nat, slot: Slot)
    requires Sound(moments) && i <= j < |moments| && slot != Local
    ensures slot in moments[i].final ==> slot in moments[j].final
    ensures moments[i].commits <= moments[j].commits
  {
    if i < j {
      SoundKeeps(moments, i, j - 1, slot);
    }
  }

  /** Once there is a snapshot in backups/ it is never absent again, at any moment of any later
      night, and no commit is ever lost. */
  lemma {:induction false} NeverAbsentAgain(f: Files, runs: seq<Run>, n: Night, i: nat, slot: Slot)
    requires Safe(f) && slot != Local && i < |Moments(After(f, runs), n)|
    ensures slot in f.final ==> slot in Moments(After(f, runs), n)[i].final
    ensures f.commits <= Moments(After(f, runs), n)[i].commits
  {
    var start := After(f, runs);
    AfterIsSafe(f, runs);
    NightSound(start, n);
    SoundKeeps(Moments(start, n), 0, i, slot);
    if runs != [] {
      var before, r := runs[..|runs| - 1], runs[|runs| - 1];
      var stop := Stop(Moments(After(f, before), r.night), r.killedAfter);
      NeverAbsentAgain(f, before, r.night, stop, slot);
    }
  }

  predicate NothingAdopted(f: Files) {
    && Crads !in f.final && Crads !in f.staged
    && forall i | 0 <= i < |f.commits| :: Crads !in f.commits[i].snapshots && Crads !in f.commits[i].staged
  }

  /** Everything a commit holds is a verified snapshot within the cap. */
  predicate Fits(c: Commit) {
    && c.staged == map[] && AllRestore(c.snapshots)
    && forall slot | slot in c.snapshots :: c.snapshots[slot].size <= HARD_CAP
  }

  lemma CleanupNotAdopted(f: Files, n: Night, g: Files)
    requires NothingAdopted(f) && g in Cleanup(f, n)
    ensures NothingAdopted(g)
  {
  }

  lemma DropNotAdopted(f: Files, n: Night, g: Files)
    requires NothingAdopted(f) && g in AfterDrop(f, n)
    ensures NothingAdopted(g)
  {
    assert NothingAdopted(Committed(f, n));
    if g in Cleanup(f, n) {
      CleanupNotAdopted(f, n, g);
    } else if g in Cleanup(Committed(f, n), n) {
      CleanupNotAdopted(Committed(f, n), n, g);
    }
  }

  lemma RenameNotAdopted(f: Files, n: Night, g: Files)
    requires NothingAdopted(f) && g in AfterRename(f, n)
    ensures NothingAdopted(g)
  {
    if g in Cleanup(f, n) {
      CleanupNotAdopted(f, n, g);
    } else if g in AfterDrop(Superseded(f, n), n) {
      DropNotAdopted(Superseded(f, n), n, g);
    }
  }

  lemma WriteNotAdopted(f: Files, n: Night, g: Files)
    requires NothingAdopted(f) && !n.adopted && n.Dest() in f.staged && g in AfterWrite(f, n)
    ensures NothingAdopted(g)
  {
    if g in Cleanup(f, n) {
      CleanupNotAdopted(f, n, g);
    } else if g in AfterRename(Renamed(f, n), n) {
      RenameNotAdopted(Renamed(f, n), n, g);
    }
  }

  lemma NightNotAdopted(f: Files, n: Night, g: Files)
    requires NothingAdopted(f) && !n.adopted && g in Moments(f, n)
    ensures NothingAdopted(g)
  {
    var w := Writing(f, n);
    assert NothingAdopted(w) && NothingAdopted(Written(f, n));
    if g in Cleanup(f, n) {
      CleanupNotAdopted(f, n, g);
    } else if g in Cleanup(w, n) {
      CleanupNotAdopted(w, n, g);
    } else if g in AfterWrite(Written(f, n), n) {
      WriteNotAdopted(Written(f, n), n, g);
    }
  }

  /** Nothing half-made lies in backups/crads/, and what lies there finished is within the cap. */
  predicate CradsFits(final: map<Slot, Blob>, staged: map<Slot, Blob>) {
    Crads !in staged && (Crads in final ==> final[Crads].size <= HARD_CAP)
  }

  lemma GoodCommitFits(c: Commit)
    requires GoodCommit(c)
    ensures Fits(c) <==> CradsFits(c.snapshots, c.staged)
  {
    forall slot: Slot | slot != Crads
      ensures slot !in c.staged && (slot in c.snapshots ==> slot == Out)
    {
      match slot
      case Out =>
      case Local =>
    }
    if Crads !in c.staged {
      assert c.staged.Keys == {};
    }
  }

  /** What a commit holds is within the cap exactly when what lies in backups/crads/ at the moment
      it is made is, and nothing half-made lies there: at every moment of every sequence of nights. */
  lemma EveryCommit(f: Files, runs: seq<Run>, n: Night, i: nat)
    requires Safe(f) && 0 < i < |Moments(After(f, runs), n)|
    ensures var m := Moments(After(f, runs), n);
      && m[i - 1].commits <= m[i].commits
      && (m[i].commits != m[i - 1].commits ==>
            && |m[i].commits| == |m[i - 1].commits| + 1
            && (Fits(m[i].commits[|m[i - 1].commits|]) <==> CradsFits(m[i].final, m[i].staged)))
  {
    AfterIsSafe(f, runs);
    NightSound(After(f, runs), n);
    StepCommits(Moments(After(f, runs), n)[i - 1], Moments(After(f, runs), n)[i]);
  }

  lemma StepCommits(a: Files, b: Files)
    requires Safe(b) && Keeps(a, b)
    ensures a.commits <= b.commits
    ensures b.commits != a.commits ==>
      |b.commits| == |a.commits| + 1 && (Fits(b.commits[|a.commits|]) <==> CradsFits(b.final, b.staged))
  {
    if b.commits != a.commits {
      var c := b.commits[|a.commits|];
      GoodCommitFits(c);
      assert Crads != Local && (Crads in c.snapshots ==> c.snapshots[Crads] == b.final[Crads]);
    }
  }

  /** On a brain that was never adopted every snapshot under backups/ is within the hard cap, and so
      is everything in every commit; whatever else runs `git add -A` at any moment commits nothing
      GitHub refuses. */
  lemma {:induction false} PebbleFitsGitHub(f: Files, runs: seq<Run>, n: Night, i: nat)
    requires Safe(f) && NothingAdopted(f)
    requires !n.adopted && forall k :: 0 <= k < |runs| ==> !runs[k].night.adopted
    requires i < |Moments(After(f, runs), n)|
    ensures var g := Moments(After(f, runs), n)[i];
      && NothingAdopted(g)
      && (forall slot :: slot in g.final && slot != Local ==> g.final[slot].size <= HARD_CAP)
      && (forall slot :: slot in g.staged && slot != Local ==> g.staged[slot].size <= HARD_CAP)
      && (forall k :: 0 <= k < |g.commits| ==> Fits(g.commits[k]))
  {
    if runs != [] {
      var before, r := runs[..|runs| - 1], runs[|runs| - 1];
      PebbleFitsGitHub(f, before, r.night, Stop(Moments(After(f, before), r.night), r.killedAfter));
    }
    var g := Moments(After(f, runs), n)[i];
    NightNotAdopted(After(f, runs), n, g);
    EveryMomentIsSafe(f, runs, n, i);
    forall k | 0 <= k < |g.commits| {
      GoodCommitFits(g.commits[k]);
    }
  }

  // ---------------------------------------------------------------- what a night comes to

  predicate Succeeds(n: Night) {
    n.anyTarget && n.restores && n.throws.None?
  }

  /** A night nothing goes wrong with ends with its snapshot where it belongs, nothing staged
      there, a superseded local copy gone, and one commit exactly when it may commit and git works. */
  lemma SuccessfulNight(f: Files, n: Night)
    requires Succeeds(n)
    ensures var g := Moments(f, n)[|Moments(f, n)| - 1]; var place := Place(n);
      && place in g.final && g.final[place].restores && g.final[place].size == CipherSize(n.tar)
      && place !in g.staged
      && (place != Local ==> Local !in g.final)
      && (forall slot :: slot != place && slot != Local ==>
            (slot in g.final <==> slot in f.final) && (slot in f.final ==> g.final[slot] == f.final[slot]))
      && |g.commits| == |f.commits| + (if MayCommit(n) && n.gitWorks then 1 else 0)
      && (MayCommit(n) && n.gitWorks ==> g.commits == f.commits + [Commit(n, g.final - {Local}, g.staged - {Local})])
  {
    var w := Written(f, n);
    var g := Committed(Superseded(Renamed(w, n), n), n);
    NightIs(n);
    assert AfterDrop(Superseded(Renamed(w, n), n), n)[1] == g;
  }

  /** An adopted night and then one that is not, and a commit that holds a snapshot of that size. */
  ghost predicate CommitsAny(f: Files, first: Run, second: Run, size: nat) {
    && Safe(f) && first.night.adopted && !second.night.adopted
    && var g := Last(Last(f, first), second);
       |g.commits| == 1 && Crads in g.commits[0].snapshots && g.commits[0].snapshots[Crads].size == size
  }

  /** What a successful night comes to, as a run that lasts to its end. */
  lemma WholeNight(f: Files, n: Night) returns (r: Run)
    requires Succeeds(n)
    ensures r.night == n
    ensures var g := Last(f, r); var place := Place(n);
      && place in g.final && g.final[place].restores && g.final[place].size == CipherSize(n.tar)
      && (forall slot :: slot != place && slot != Local && slot in f.final ==>
            slot in g.final && g.final[slot] == f.final[slot])
      && |g.commits| == |f.commits| + (if MayCommit(n) && n.gitWorks then 1 else 0)
      && (MayCommit(n) && n.gitWorks ==> g.commits[|f.commits|].snapshots == g.final - {Local})
  {
    SuccessfulNight(f, n);
    r := Run(n, |Moments(f, n)|);
  }

  lemma TwoNights(f: Files, first: Night, second: Night) returns (one: Run, two: Run)
    requires Safe(f) && f.commits == []
    requires Succeeds(first) && first.adopted && Succeeds(second) && MayCommit(second) && second.gitWorks
    ensures CommitsAny(f, one, two, CipherSize(first.tar))
  {
    one := WholeNight(f, first);
    two := WholeNight(Last(f, one), second);
    assert Place(first) == Crads && Place(second) == Out;
  }

  lemma NightsThere(tar: nat) returns (first: Night, second: Night)
    ensures Succeeds(first) && first.adopted && first.tar == tar
    ensures Succeeds(second) && MayCommit(second) && second.gitWorks
  {
    first := Night(true, false, true, NaN, NaN, tar, 0, true, true, None);
    second := Night(false, false, true, NaN, NaN, 0, 0, true, true, None);
  }

  /** That no night was adopted is needed: otherwise a commit may hold a snapshot of any size. */
  lemma AdoptedThenCommitted(tar: nat)
    ensures exists f: Files, first: Run, second: Run :: CommitsAny(f, first, second, CipherSize(tar))
  {
    var first, second := NightsThere(tar);
    var one, two := TwoNights(Files(map[], map[], []), first, second);
  }

  /** A night that fails before its rename leaves every final snapshot and the history exactly as
      they were, and nothing staged that its own paths could have left. */
  lemma FailedNight(f: Files, n: Night)
    requires !n.anyTarget || !n.restores
      || n.throws in {Some(AtTar), Some(AtPrepare), Some(AtEncrypt), Some(AtVerify), Some(AtRename)}
    ensures var g := Moments(f, n)[|Moments(f, n)| - 1];
      g.final == f.final && g.commits == f.commits && g.staged == f.staged - {if n.adopted then Crads else Out, Local}
  {
  }

  function LastOf(moments: seq<Files>): Files
    requires moments != []
  {
    moments[|moments| - 1]
  }

  lemma LastCons(x: Files, rest: seq<Files>)
    requires rest != []
    ensures LastOf([x] + rest) == LastOf(rest)
  {
  }

  /** A night that passes its verify comes to what comes after the rename. */
  lemma PastTheRename(f: Files, n: Night)
    requires n.anyTarget && n.restores && n.throws in {None, Some(AtDropLocal), Some(AtStat), Some(AtHeartbeat)}
    ensures LastOf(Moments(f, n)) == LastOf(AfterRename(Renamed(Written(f, n), n), n))
  {
    var w := Written(f, n);
    LastCons(f, AfterTar(f, n));
    LastCons(Writing(f, n), AfterWrite(w, n));
    LastCons(w, AfterRename(Renamed(w, n), n));
  }

  /** The night's snapshot is in its place, and nothing is staged that was not elsewhere before. */
  ghost predicate Settled(f: Files, n: Night, g: Files) {
    && Place(n) in g.final && g.final[Place(n)] == Blob(CipherSize(n.tar), true)
    && g.staged == f.staged - {if n.adopted then Crads else Out, Local}
  }

  /** A night that fails once its snapshot is verified and in place keeps it there. It has dropped
      a superseded local copy unless that failed, and committed exactly when only the heartbeat
      failed and it may commit. */
  lemma DropFault(f: Files, n: Night)
    requires n.anyTarget && n.restores && n.throws == Some(AtDropLocal) && Place(n) != Local
    ensures var g := LastOf(Moments(f, n));
      Settled(f, n, g) && (Local in g.final <==> Local in f.final) && g.commits == f.commits
  {
    PastTheRename(f, n);
    NightIs(n);
  }

  lemma StatFault(f: Files, n: Night)
    requires n.anyTarget && n.restores && n.throws == Some(AtStat)
    ensures var g := LastOf(Moments(f, n));
      Settled(f, n, g) && (Local in g.final <==> Place(n) == Local) && g.commits == f.commits
  {
    PastTheRename(f, n);
    NightIs(n);
    var r := Renamed(Written(f, n), n);
    LastCons(r, AfterDrop(Superseded(r, n), n));
  }

  lemma HeartbeatFault(f: Files, n: Night)
    requires n.anyTarget && n.restores && n.throws == Some(AtHeartbeat)
    ensures var g := LastOf(Moments(f, n));
      && Settled(f, n, g) && (Local in g.final <==> Place(n) == Local)
      && (if MayCommit(n) && n.gitWorks
          then |g.commits| == |f.commits| + 1 && f.commits <= g.commits && g.commits[|f.commits|].night == n
          else g.commits == f.commits)
  {
    PastTheRename(f, n);
    NightIs(n);
    var r := Renamed(Written(f, n), n);
    LastCons(r, AfterDrop(Superseded(r, n), n));
  }

  /** Removing a superseded local copy is not tried when the snapshot is itself local. */
  lemma NothingToDrop(f: Files, n: Night)
    requires n.anyTarget && n.restores && n.throws == Some(AtDropLocal) && Place(n) == Local
    ensures LastOf(Moments(f, n)) == Renamed(Written(f, n), n)
  {
    PastTheRename(f, n);
    NightIs(n);
    var r := Renamed(Written(f, n), n);
    LastCons(r, AfterDrop(Superseded(r, n), n));
  }

  /** The first effects of a night. */
  lemma NightBegins(f: Files, n: Night, k: nat)
    ensures Last(f, Run(n, k)) ==
      if !n.anyTarget || n.Throws(AtTar) || n.Throws(AtPrepare) then Left([f] + Cleanup(f, n), k)
      else if k == 0 then f else Left(AfterTar(f, n), k - 1)
  {
    LeftCons(f, AfterTar(f, n), k);
  }

  // ---------------------------------------------------------------- the script itself

  class Brain {
    var files: Files
    var patience: nat                   // effects left before the process is killed

    constructor (f: Files)
      ensures files == f
    {
      files, patience := f, 0;
    }

    /** One effect on the disk, unless the process is dead by then. */
    method Effect(g: Files) returns (alive: bool)
      modifies this
      ensures alive <==> old(patience) > 0
      ensures files == if alive then g else old(files)
      ensures patience == if alive then old(patience) - 1 else 0
    {
      alive := patience > 0;
      if alive {
        files, patience := g, patience - 1;
      }
    }

    /** The catch path. */
    method Catch(n: Night)
      modifies this
      ensures files == Left([old(files)] + Cleanup(old(files), n), old(patience))
    {
      var alive := Effect(Unstaged(files, n.Home()));
      if alive {
        alive := Effect(Unstaged(files, Local));
      }
    }

    /** The nightly run, killed after `killedAfter` effects if it lasts that long. */
    method Nightly(n: Night, killedAfter: nat)
      modifies this
      ensures files == Last(old(files), Run(n, killedAfter))
    {
      patience := killedAfter;
      NightBegins(files, n, killedAfter);
      if !n.anyTarget || n.Throws(AtTar) || n.Throws(AtPrepare) {
        Catch(n);
      } else {
        Encrypt(n);
      }
    }

    /** From the tar on. */
    method Encrypt(n: Night)
      modifies this
      ensures files == if old(patience) == 0 then old(files) else Left(AfterTar(old(files), n), old(patience) - 1)
    {
      var alive := Effect(Writing(files, n));
      if alive {
        StageAndVerify(n, old(files));
      }
    }

    method StageAndVerify(n: Night, ghost before: Files)
      requires files == Writing(before, n)
      modifies this
      ensures files == Left(AfterTar(before, n), old(patience))
    {
      if n.Throws(AtEncrypt) {
        Catch(n);
        return;
      }
      assert Written(files, n).staged == Written(before, n).staged;
      LeftCons(files, AfterWrite(Written(files, n), n), patience);
      var alive := Effect(Written(files, n));
      if !alive {
        return;
      }
      if !files.staged[n.Dest()].restores || n.Throws(AtVerify) || n.Throws(AtRename) {
        Catch(n);
        return;
      }
      LeftCons(files, AfterRename(Renamed(files, n), n), patience);
      alive := Effect(Renamed(files, n));
      if alive {
        Publish(n);
      }
    }

    method Publish(n: Night)
      modifies this
      ensures files == Left(AfterRename(old(files), n), old(patience))
    {
      if n.Throws(AtDropLocal) && n.Dest() == n.Home() {
        Catch(n);
        return;
      }
      LeftCons(files, AfterDrop(Superseded(files, n), n), patience);
      var alive := Effect(Superseded(files, n));
      if !alive {
        return;
      }
      if n.Throws(AtStat) {
        Catch(n);
        return;
      }
      alive := Effect(Committed(files, n));
      if alive && n.Throws(AtHeartbeat) {
        Catch(n);
      }
    }
  }
}
