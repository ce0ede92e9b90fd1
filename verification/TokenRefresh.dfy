/** Spending single-use refresh tokens against a server without ever losing the live one. */
module TokenRefresh {
  import opened Bytes

  const EARLY_MS: int := 30 * 60 * 1000
  const DEFAULT_LIFE: int := 8 * 3600
  const DEFAULT_REFRESH_LIFE: int := 6 * 30 * 24 * 3600

  /** device-refresh.json. A time of 0 stands for a field that is absent. */
  datatype Store =
    | Missing
    | Unreadable
    | Stored(refresh: Option<nat>, expiresAt: int, refreshExpiresAt: int)

  /** GitHub: it has issued the tokens below `issued`; of them only `live` is not spent. */
  datatype Server = Server(live: nat, issued: nat)

  /** What becomes of a request. A lost one was received but its answer never read. A grant may
      rotate the refresh token; lifetimes of 0 stand for fields that are absent. */
  datatype Fate =
    | NotReceived
    | AnswerLost(rotates: bool)
    | Refusal
    | Grant(rotates: bool, expiresIn: int, refreshExpiresIn: int)

  /** One run of the script: when, whether forced, and what the world does. */
  datatype Run = Run(now: int, force: bool, fate: Fate, loginWorks: bool)

  datatype Outcome = Skipped | Expired | Fresh | Offline | Refused | StoreFailed | Refreshed

  // ---------------------------------------------------------------- the server

  /** A token it did not issue last is refused whatever it would have done, and a refusal may be
      lost as any answer may. */
  function Treats(sv: Server, token: nat, fate: Fate): Fate {
    if token == sv.live then fate
    else if fate.Grant? then Refusal
    else if fate.AnswerLost? then AnswerLost(false)
    else fate
  }

  function Serves(sv: Server, token: nat, fate: Fate): Server {
    match Treats(sv, token, fate)
    case AnswerLost(rotates) => if rotates then Server(sv.issued, sv.issued + 1) else sv
    case Grant(rotates, _, _) => if rotates then Server(sv.issued, sv.issued + 1) else sv
    case _ => sv
  }

  // ---------------------------------------------------------------- one run

  /** saveGrant on a refresh token. */
  function Saved(token: nat, expiresIn: int, refreshExpiresIn: int, now: int): Store {
    Stored(Some(token), now + (if expiresIn != 0 then expiresIn else DEFAULT_LIFE) * 1000,
           now + (if refreshExpiresIn != 0 then refreshExpiresIn else DEFAULT_REFRESH_LIFE) * 1000)
  }

  predicate StillFresh(st: Store, r: Run)
    requires st.Stored?
  {
    !r.force && st.expiresAt != 0 && r.now < st.expiresAt - EARLY_MS
  }

  predicate RefreshExpired(st: Store, r: Run)
    requires st.Stored?
  {
    st.refreshExpiresAt != 0 && r.now > st.refreshExpiresAt
  }

  /** Does the run send its stored token? */
  predicate Sends(st: Store, r: Run) {
    st.Stored? && st.refresh.Some? && !RefreshExpired(st, r) && !StillFresh(st, r)
  }

  /** The moments of a run. One that sends nothing changes nothing. One that is granted a token
      saves it over the store, which truncates the file first: until its last brace is written the
      store cannot be read. */
  function Moments(st: Store, sv: Server, r: Run): seq<(Store, Server)> {
    if !Sends(st, r) then [(st, sv)] else
    var token := st.refresh.value;
    var served := Serves(sv, token, r.fate);
    match Treats(sv, token, r.fate)
    case Grant(rotates, life, refreshLife) =>
      var saved := Saved(if rotates then sv.issued else token, life, refreshLife, r.now);
      [(st, sv), (st, served), (Unreadable, served), (saved, served)]
    case _ => [(st, sv), (st, served)]
  }

  function After(st: Store, sv: Server, r: Run): (Store, Server) {
    var m := Moments(st, sv, r);
    m[|m| - 1]
  }

  function OutcomeOf(st: Store, sv: Server, r: Run): Outcome {
    if !st.Stored? || st.refresh.None? then Skipped
    else if RefreshExpired(st, r) then Expired
    else if StillFresh(st, r) then Fresh
    else match Treats(sv, st.refresh.value, r.fate)
      case NotReceived => Offline
      case AnswerLost(_) => Offline
      case Refusal => Refused
      case Grant(_, _, _) => if r.loginWorks then Refreshed else StoreFailed
  }

  /** What a run answers, by its store, its time and what becomes of its request. */
  lemma OutcomeIs(st: Store, sv: Server, r: Run)
    ensures OutcomeOf(st, sv, r) ==
      if !st.Stored? || st.refresh == None then Skipped
      else if st.refreshExpiresAt != 0 && r.now > st.refreshExpiresAt then Expired
      else if !r.force && st.expiresAt != 0 && st.expiresAt - r.now > 1_800_000 then Fresh
      else if r.fate.NotReceived? || r.fate.AnswerLost? then Offline
      else if r.fate.Refusal? || st.refresh != Some(sv.live) then Refused
      else if r.loginWorks then Refreshed else StoreFailed
  {
  }

  /** And what it leaves: a run that is not granted a token leaves its store; GitHub spends the live
      token when it hands out the next, whether or not its answer arrives. */
  lemma RunLeaves(st: Store, sv: Server, r: Run)
    ensures var a := After(st, sv, r); var o := OutcomeOf(st, sv, r); var f := r.fate;
      && (o in {Refreshed, StoreFailed} ==>
            a.0 == Stored(if f.rotates then Some(sv.issued) else st.refresh,
                          r.now + 1000 * (if f.expiresIn == 0 then 28_800 else f.expiresIn),
                          r.now + 1000 * (if f.refreshExpiresIn == 0 then 15_552_000 else f.refreshExpiresIn)))
      && (o !in {Refreshed, StoreFailed} ==> a.0 == st)
      && (a.1 == if Spends(st, sv, r) then Server(sv.issued, sv.issued + 1) else sv)
  {
  }

  predicate Spends(st: Store, sv: Server, r: Run) {
    && OutcomeOf(st, sv, r) !in {Skipped, Expired, Fresh, Refused}
    && (r.fate.Grant? || r.fate.AnswerLost?) && r.fate.rotates && st.Stored? && st.refresh == Some(sv.live)
  }

  /** The store can be read, and its refresh token is the server's live one. */
  predicate Holds(st: Store, sv: Server) {
    st.Stored? && st.refresh == Some(sv.live) && sv.live < sv.issued
  }

  /** A run that sends sends the live token, and ends with the live token stored unless GitHub
      rotated it and the answer never arrived: that one fault loses it, and nothing else does. */
  lemma RunKeepsLive(st: Store, sv: Server, r: Run)
    requires Holds(st, sv)
    ensures Sends(st, r) ==> st.refresh.value == sv.live
    ensures var a := After(st, sv, r); Holds(a.0, a.1) <==> !(Sends(st, r) && r.fate == AnswerLost(true))
  {
  }

  /** The moments at which the live token is nowhere: from a rotating exchange to the end of its
      save, and from the beginning to the end of any save, rotating or not. */
  predicate InTheWindow(r: Run, i: nat) {
    match r.fate
    case AnswerLost(rotates) => rotates && i == 1
    case Grant(rotates, _, _) => (rotates && i == 1) || i == 2
    case _ => false
  }

  /** Where a kill loses it: exactly there. */
  lemma KillWindow(st: Store, sv: Server, r: Run, i: nat)
    requires Holds(st, sv) && i < |Moments(st, sv, r)|
    ensures Holds(Moments(st, sv, r)[i].0, Moments(st, sv, r)[i].1) <==> !InTheWindow(r, i)
  {
  }

  /** Once lost it is lost for good: a spent token is refused, a torn store is skipped, and no
      moment of any later run has the live token stored. */
  lemma LostForGood(st: Store, sv: Server, r: Run, i: nat)
    requires !Holds(st, sv) && sv.live < sv.issued && i < |Moments(st, sv, r)|
    ensures !Holds(Moments(st, sv, r)[i].0, Moments(st, sv, r)[i].1)
    ensures Moments(st, sv, r)[i].1 == sv
  {
  }

  // ---------------------------------------------------------------- every sequence of runs

  function AfterAll(st: Store, sv: Server, runs: seq<Run>): (Store, Server) {
    if runs == [] then (st, sv) else
    var a := AfterAll(st, sv, runs[..|runs| - 1]);
    After(a.0, a.1, runs[|runs| - 1])
  }

  /** Over every sequence of runs in which no answer to a rotation is lost, the live token stays
      stored, and a run sends only a token that is live when it is sent. */
  lemma {:induction false} NeverSpendsASpentToken(st: Store, sv: Server, runs: seq<Run>, r: Run)
    requires Holds(st, sv) && forall k :: 0 <= k < |runs| ==> runs[k].fate != AnswerLost(true)
    ensures var a := AfterAll(st, sv, runs);
      Holds(a.0, a.1) && (Sends(a.0, r) ==> a.0.refresh.value == a.1.live)
  {
    if runs != [] {
      var most := runs[..|runs| - 1];
      NeverSpendsASpentToken(st, sv, most, r);
      var a := AfterAll(st, sv, most);
      RunKeepsLive(a.0, a.1, runs[|runs| - 1]);
    }
  }

  /** A run, and after how many of its moments the process is killed, if it lasts that long. */
  datatype Cut = Cut(run: Run, killedAfter: nat)

  function Stop(st: Store, sv: Server, c: Cut): nat {
    var m := Moments(st, sv, c.run);
    if c.killedAfter < |m| then c.killedAfter else |m| - 1
  }

  function AfterCuts(st: Store, sv: Server, cuts: seq<Cut>): (Store, Server) {
    if cuts == [] then (st, sv) else
    var n := |cuts| - 1;
    var a := AfterCuts(st, sv, cuts[..n]);
    Moments(a.0, a.1, cuts[n].run)[Stop(a.0, a.1, cuts[n])]
  }

  /** A run can be killed at each of its moments, and one that is not killed ends at its last. */
  lemma CutOnce(st: Store, sv: Server, r: Run, k: nat)
    ensures AfterCuts(st, sv, [Cut(r, k)])
         == if k < |Moments(st, sv, r)| then Moments(st, sv, r)[k] else After(st, sv, r)
  {
    assert [Cut(r, k)][..0] == [];
    assert AfterCuts(st, sv, []) == (st, sv);
  }

  /** Does the k-th run end inside the window? */
  predicate Loses(st: Store, sv: Server, cuts: seq<Cut>, k: nat)
    requires k < |cuts|
  {
    var a := AfterCuts(st, sv, cuts[..k]);
    Sends(a.0, cuts[k].run) && InTheWindow(cuts[k].run, Stop(a.0, a.1, cuts[k]))
  }

  /** Over every sequence of runs, each killed anywhere, the live token is still stored exactly
      when no run ended inside the window. */
  lemma {:induction false} KeptThroughKills(st: Store, sv: Server, cuts: seq<Cut>)
    requires Holds(st, sv)
    ensures var a := AfterCuts(st, sv, cuts);
      a.1.live < a.1.issued && (Holds(a.0, a.1) <==> forall k :: 0 <= k < |cuts| ==> !Loses(st, sv, cuts, k))
  {
    if cuts != [] {
      var n := |cuts| - 1;
      var most, last := cuts[..n], cuts[n];
      KeptThroughKills(st, sv, most);
      forall k | 0 <= k < n
        ensures Loses(st, sv, most, k) == Loses(st, sv, cuts, k)
      {
        assert most[..k] == cuts[..k] && most[k] == cuts[k];
      }
      var a := AfterCuts(st, sv, most);
      var i := Stop(a.0, a.1, last);
      if Holds(a.0, a.1) {
        KillWindow(a.0, a.1, last.run, i);
        NothingSent(a.0, a.1, last.run, i);
        assert Loses(st, sv, cuts, n) <==> InTheWindow(last.run, i);
      } else {
        var k :| 0 <= k < n && Loses(st, sv, most, k);
        assert Loses(st, sv, cuts, k);
        LostForGood(a.0, a.1, last.run, i);
      }
    }
  }

  lemma NothingSent(st: Store, sv: Server, r: Run, i: nat)
    requires Holds(st, sv) && i < |Moments(st, sv, r)|
    ensures InTheWindow(r, i) ==> Sends(st, r)
    ensures Moments(st, sv, r)[i].1.live < Moments(st, sv, r)[i].1.issued
  {
  }

  /** Nothing but a new sign-in ends a store: no run deletes it or its token. */
  lemma {:induction false} TheWayBackStays(st: Store, sv: Server, runs: seq<Run>)
    requires st.Stored? && st.refresh.Some?
    ensures var a := AfterAll(st, sv, runs).0; a.Stored? && a.refresh.Some?
  {
    if runs != [] {
      TheWayBackStays(st, sv, runs[..|runs| - 1]);
    }
  }

  /** After a failed access-token store the next run tries again exactly when it is forced or the
      new token is already within its early window; until then it takes the token it could not
      store for a fresh one. */
  lemma RetryAfterFailedStore(st: Store, sv: Server, failed: Run, next: Run)
    requires Holds(st, sv) && OutcomeOf(st, sv, failed) == StoreFailed
    requires next.now <= After(st, sv, failed).0.refreshExpiresAt && After(st, sv, failed).0.expiresAt != 0
    ensures var a := After(st, sv, failed);
      Sends(a.0, next) <==> next.force || next.now >= a.0.expiresAt - EARLY_MS
    ensures var a := After(st, sv, failed);
      Sends(a.0, next) && next.fate.Grant? && next.loginWorks ==> OutcomeOf(a.0, a.1, next) == Refreshed
  {
  }

  /** So the hour after a failed store does not retry: eight hours of life leave seven and a half
      in which an hourly run reports the token fresh. */
  lemma TheNextHourDoesNotRetry()
    ensures exists st: Store, sv: Server, failed: Run, next: Run ::
      && Holds(st, sv) && OutcomeOf(st, sv, failed) == StoreFailed
      && next.now == failed.now + 3600 * 1000 && next.fate.Grant? && next.loginWorks
      && OutcomeOf(After(st, sv, failed).0, After(st, sv, failed).1, next) == Fresh
  {
    var st, sv := Stored(Some(0), 1, 0), Server(0, 1);
    var failed := Run(1, false, Grant(true, 28800, 15897600), false);
    var next := Run(1 + 3600 * 1000, false, Grant(true, 28800, 15897600), true);
    assert OutcomeOf(st, sv, failed) == StoreFailed;
    assert OutcomeOf(After(st, sv, failed).0, After(st, sv, failed).1, next) == Fresh;
  }

  // ---------------------------------------------------------------- how long a token is expired

  /** What a grant made at time 0 would store. */
  function Granted(f: Fate): Store
    requires f.Grant?
  {
    Saved(0, f.expiresIn, f.refreshExpiresIn, 0)
  }

  /** A run at most `gap` after the one before it, meeting a server that would grant an access
      token that outlives the early window and a refresh token that lasts to the run that needs it. */
  predicate OnTime(before: int, gap: int, r: Run) {
    && before <= r.now <= before + gap && r.now > 0 && r.fate.Grant? && r.loginWorks
    && Granted(r.fate).expiresAt > EARLY_MS
    && Granted(r.fate).refreshExpiresAt >= Granted(r.fate).expiresAt - EARLY_MS + gap
  }

  function Before(last: int, runs: seq<Run>, k: nat): int
    requires k <= |runs|
  {
    if k == 0 then last else runs[k - 1].now
  }

  ghost predicate Punctual(last: int, gap: int, runs: seq<Run>) {
    forall k :: 0 <= k < |runs| ==> OnTime(Before(last, runs, k), gap, runs[k])
  }

  /** At its last check the stored access token was not yet in its early window, and the refresh
      token beside it lasts to the run that finds it there. */
  predicate Checked(st: Store, sv: Server, last: int, gap: int) {
    && Holds(st, sv) && st.expiresAt - EARLY_MS > last > 0
    && (st.refreshExpiresAt == 0 || st.refreshExpiresAt >= st.expiresAt - EARLY_MS + gap)
  }

  lemma OneRunInTime(st: Store, sv: Server, last: int, gap: int, r: Run)
    requires Checked(st, sv, last, gap) && OnTime(last, gap, r)
    ensures r.now < st.expiresAt || r.now < st.expiresAt + gap - 1_800_000
    ensures OutcomeOf(st, sv, r) in {Fresh, Refreshed}
    ensures var a := After(st, sv, r); Checked(a.0, a.1, r.now, gap)
  {
  }

  /** A run finds a token that is good, or expired less than gap - early ago, and finds or makes it fresh. */
  predicate InTime(st: Store, sv: Server, gap: int, r: Run) {
    && st.Stored? && (r.now < st.expiresAt || r.now < st.expiresAt + gap - 1_800_000)
    && OutcomeOf(st, sv, r) in {Fresh, Refreshed}
  }

  predicate KthInTime(st: Store, sv: Server, gap: int, runs: seq<Run>, k: nat)
    requires k < |runs|
  {
    var a := AfterAll(st, sv, runs[..k]);
    InTime(a.0, a.1, gap, runs[k])
  }

  ghost predicate AllInTime(st: Store, sv: Server, gap: int, runs: seq<Run>) {
    forall k :: 0 <= k < |runs| ==> KthInTime(st, sv, gap, runs, k)
  }

  /** Over unboundedly many renewals: whenever a run comes, the token it finds expired less than
      gap - early ago, and has not expired at all when runs are no further apart than the window. */
  lemma {:induction false} ExpiredOnlyBriefly(st: Store, sv: Server, last: int, gap: int, runs: seq<Run>)
    requires Checked(st, sv, last, gap) && Punctual(last, gap, runs)
    ensures var a := AfterAll(st, sv, runs);
      Checked(a.0, a.1, Before(last, runs, |runs|), gap)
    ensures AllInTime(st, sv, gap, runs)
  {
    if runs != [] {
      var n := |runs| - 1;
      FewerPunctual(last, gap, runs);
      ExpiredOnlyBriefly(st, sv, last, gap, runs[..n]);
      OneMoreRun(st, sv, Before(last, runs, n), gap, runs);
      OneMoreInTime(st, sv, gap, runs);
    }
  }

  lemma OneMoreInTime(st: Store, sv: Server, gap: int, runs: seq<Run>)
    requires runs != [] && AllInTime(st, sv, gap, runs[..|runs| - 1]) && KthInTime(st, sv, gap, runs, |runs| - 1)
    ensures AllInTime(st, sv, gap, runs)
  {
    forall k | 0 <= k < |runs| - 1
      ensures KthInTime(st, sv, gap, runs, k)
    {
      SameRun(st, sv, gap, runs, |runs| - 1, k);
    }
  }

  lemma OneMoreRun(st: Store, sv: Server, last: int, gap: int, runs: seq<Run>)
    requires runs != [] && OnTime(last, gap, runs[|runs| - 1])
    requires var a := AfterAll(st, sv, runs[..|runs| - 1]); Checked(a.0, a.1, last, gap)
    ensures KthInTime(st, sv, gap, runs, |runs| - 1)
    ensures var a := AfterAll(st, sv, runs); Checked(a.0, a.1, runs[|runs| - 1].now, gap)
  {
    var a := AfterAll(st, sv, runs[..|runs| - 1]);
    OneRunInTime(a.0, a.1, last, gap, runs[|runs| - 1]);
  }

  lemma SameRun(st: Store, sv: Server, gap: int, runs: seq<Run>, n: nat, k: nat)
    requires k < n <= |runs|
    ensures KthInTime(st, sv, gap, runs[..n], k) == KthInTime(st, sv, gap, runs, k)
  {
    assert runs[..n][..k] == runs[..k];
  }

  lemma FewerPunctual(last: int, gap: int, runs: seq<Run>)
    requires runs != [] && Punctual(last, gap, runs)
    ensures var n := |runs| - 1;
      Punctual(last, gap, runs[..n]) && Before(last, runs[..n], n) == Before(last, runs, n)
      && OnTime(Before(last, runs, n), gap, runs[n])
  {
    var n := |runs| - 1;
    forall k | 0 <= k < n
      ensures OnTime(Before(last, runs[..n], k), gap, runs[..n][k])
    {
      assert Before(last, runs[..n], k) == Before(last, runs, k);
    }
  }

  // ---------------------------------------------------------------- the script

  class Mineral {
    var store: Store
    var server: Server          // the world outside, which the exchange changes
    var patience: nat           // effects left before the process is killed

    constructor (st: Store, sv: Server)
      ensures store == st && server == sv
    {
      store, server, patience := st, sv, 0;
    }

    /** The request, as GitHub meets it; it has not been sent when the process is dead by then. */
    method Exchange(token: nat, fate: Fate) returns (answer: Option<Fate>)
      modifies this`server, this`patience
      ensures old(patience) == 0 ==> answer == None && server == old(server) && patience == 0
      ensures old(patience) > 0 ==>
        answer == Some(Treats(old(server), token, fate)) && server == Serves(old(server), token, fate)
        && patience == old(patience) - 1
    {
      if patience == 0 {
        return None;
      }
      patience := patience - 1;
      var treated := fate;
      if token != server.live {
        if fate.Grant? {
          treated := Refusal;
        } else if fate.AnswerLost? {
          treated := AnswerLost(false);
        }
      }
      if (treated.Grant? || treated.AnswerLost?) && treated.rotates {
        server := Server(server.issued, server.issued + 1);
      }
      answer := Some(treated);
    }

    /** saveGrant: the file is truncated, then written. */
    method SaveGrant(token: nat, expiresIn: int, refreshExpiresIn: int, now: int) returns (alive: bool)
      modifies this`store, this`patience
      ensures alive <==> old(patience) >= 2
      ensures store == if old(patience) == 0 then old(store) else if old(patience) == 1 then Unreadable
                       else Saved(token, expiresIn, refreshExpiresIn, now)
    {
      if patience == 0 {
        return false;
      }
      store, patience := Unreadable, patience - 1;
      if patience == 0 {
        return false;
      }
      store, patience := Saved(token, expiresIn, refreshExpiresIn, now), patience - 1;
      alive := true;
    }

    /** refreshIfNeeded, killed after `killedAfter` effects if it lasts that long: the rotated token
        is saved before the access token is stored. */
    method RefreshIfNeeded(r: Run, killedAfter: nat) returns (outcome: Option<Outcome>)
      modifies this
      ensures (store, server) ==
        Moments(old(store), old(server), r)[Stop(old(store), old(server), Cut(r, killedAfter))]
      ensures outcome == if killedAfter < |Moments(old(store), old(server), r)| - 1 then None
                         else Some(OutcomeOf(old(store), old(server), r))
    {
      patience := killedAfter;
      if !store.Stored? || store.refresh.None? {
        return Some(Skipped);
      }
      var token := store.refresh.value;
      if store.refreshExpiresAt != 0 && r.now > store.refreshExpiresAt {
        return Some(Expired);
      }
      if !r.force && store.expiresAt != 0 && r.now < store.expiresAt - EARLY_MS {
        return Some(Fresh);
      }
      var next := server.issued;
      var answer := Exchange(token, r.fate);
      if answer.None? {
        return None;
      }
      var grant := answer.value;
      if grant.NotReceived? || grant.AnswerLost? {
        return Some(Offline);
      }
      if grant.Refusal? {
        return Some(Refused);
      }
      var alive := SaveGrant(if grant.rotates then next else token, grant.expiresIn, grant.refreshExpiresIn, r.now);
      if !alive {
        return None;
      }
      return Some(if r.loginWorks then Refreshed else StoreFailed);
    }
  }
}
