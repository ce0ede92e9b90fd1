/** Who, besides the holder, may open a mineral: the access list of ownership.json. */
module Grants {
  import opened Text

  datatype Status = Pending | Active

  datatype Row = Row(email: string, role: string, status: Status)

  /** ownership.json. The holder may be written flat or nested; empty means absent. */
  datatype Ownership = Ownership(holderEmail: string, nestedHolder: string, grants: seq<Row>,
                                 managedBy: string, owner: string)

  datatype Call =
    | Grant(email: string, role: string)
    | Activate(email: string)
    | Revoke(email: string)
    | Claim(email: string)

  const ROLES: set<string> := {"member", "admin"}

  // ---------------------------------------------------------------- addresses

  /** What String.prototype.toLowerCase does. */
  type Lowering = string -> string

  function Norm(lower: Lowering, e: string): string {
    lower(Trim(e))
  }

  /** What is asked of lower-casing: doing it twice is doing it once, and it makes no white space
      at either end. */
  ghost predicate Lowers(lower: Lowering) {
    forall s: string :: lower(lower(s)) == lower(s) && (Trim(s) == s ==> Trim(lower(s)) == lower(s))
  }

  lemma {:induction false} TrimEndTight(s: string)
    ensures TrimEnd(s) == "" || !IsSpace(TrimEnd(s)[|TrimEnd(s)| - 1])
  {
    if s != "" && IsSpace(s[|s| - 1]) {
      TrimEndTight(s[..|s| - 1]);
    }
  }

  lemma {:induction false} TrimStartTight(s: string)
    ensures TrimStart(s) == "" || !IsSpace(TrimStart(s)[0])
    ensures TrimStart(s) != "" ==> TrimStart(s)[|TrimStart(s)| - 1] == s[|s| - 1]
  {
    if s != "" && IsSpace(s[0]) {
      TrimStartTight(s[1..]);
    }
  }

  /** A text with no white space at either end is trimmed to itself. */
  predicate Tight(s: string) {
    s == "" || (!IsSpace(s[0]) && !IsSpace(s[|s| - 1]))
  }

  lemma TightTrims(s: string)
    requires Tight(s)
    ensures Trim(s) == s
  {
  }

  lemma TrimIsTight(s: string)
    ensures Tight(Trim(s)) && Trim(Trim(s)) == Trim(s)
  {
    TrimEndTight(s);
    TrimStartTight(TrimEnd(s));
    TightTrims(Trim(s));
  }

  /** A normalised address is its own normal form. */
  lemma NormTwice(lower: Lowering, e: string)
    requires Lowers(lower)
    ensures Norm(lower, Norm(lower, e)) == Norm(lower, e)
  {
    TrimIsTight(e);
  }

  function LowerChar(c: char): char {
    if 'A' <= c <= 'Z' then (c as int + 32) as char else c
  }

  function LowerAscii(s: string): string {
    seq(|s|, i requires 0 <= i < |s| => LowerChar(s[i]))
  }

  /** Lower-casing the ASCII letters is one such function. */
  lemma AsciiLowers()
    ensures Lowers(LowerAscii)
    ensures forall s: string, i :: 0 <= i < |s| && 'A' <= s[i] <= 'Z' ==>
      LowerAscii(s)[i] as int - 'a' as int == s[i] as int - 'A' as int
    ensures forall s: string, i :: 0 <= i < |s| && !('A' <= s[i] <= 'Z') ==> LowerAscii(s)[i] == s[i]
  {
    forall s: string
      ensures LowerAscii(LowerAscii(s)) == LowerAscii(s)
      ensures Trim(s) == s ==> Trim(LowerAscii(s)) == LowerAscii(s)
    {
      TrimIsTight(s);
      if Trim(s) == s {
        TightTrims(LowerAscii(s));
      }
    }
  }

  predicate Banned(c: char) {
    IsSpace(c) || c in {'|', '&', '"', '\'', '\\', '@'}
  }

  /** One '@', something before it, a dot inside what follows it, and nothing a shell could read. */
  predicate ValidEmail(e: string) {
    exists a, d | 0 < a < |e| && a + 1 < d < |e| - 1 ::
      e[a] == '@' && e[d] == '.' && forall i | 0 <= i < |e| && i != a :: !Banned(e[i])
  }

  // ---------------------------------------------------------------- the record

  /** readOwnership: the nested holder counts when there is no flat one. */
  function Read(o: Ownership): Ownership {
    if o.holderEmail == "" && o.nestedHolder != "" then o.(holderEmail := o.nestedHolder) else o
  }

  function Holder(lower: Lowering, o: Ownership): string {
    Norm(lower, Read(o).holderEmail)
  }

  /** The first row for a normalised address; the number of rows when there is none. */
  function Find(lower: Lowering, rows: seq<Row>, e: string): (i: nat)
    ensures i <= |rows| && (i < |rows| ==> Norm(lower, rows[i].email) == e)
    ensures forall j :: 0 <= j < i ==> Norm(lower, rows[j].email) != e
  {
    if rows == [] then 0 else if Norm(lower, rows[0].email) == e then 0 else 1 + Find(lower, rows[1..], e)
  }

  /** Is the call carried out? Otherwise it is refused and nothing is written. */
  predicate Accepts(lower: Lowering, o: Ownership, c: Call) {
    var r := Read(o);
    match c
    case Grant(email, role) =>
      && ValidEmail(Norm(lower, email)) && role in ROLES
      && !(Holder(lower, o) != "" && Holder(lower, o) == Norm(lower, email))
    case Activate(email) => Find(lower, r.grants, Norm(lower, email)) < |r.grants|
    case Revoke(email) => Find(lower, r.grants, Norm(lower, email)) < |r.grants|
    case Claim(email) =>
      ValidEmail(Norm(lower, email)) && (Holder(lower, o) == "" || Holder(lower, o) == Norm(lower, email))
  }

  function Apply(lower: Lowering, o: Ownership, c: Call): Ownership {
    if !Accepts(lower, o, c) then o else
    var r := Read(o);
    match c
    case Grant(email, role) =>
      var e := Norm(lower, email);
      var i := Find(lower, r.grants, e);
      if i < |r.grants| then r.(grants := r.grants[i := r.grants[i].(role := role)])
      else r.(grants := r.grants + [Row(e, role, Pending)])
    case Activate(email) =>
      var i := Find(lower, r.grants, Norm(lower, email));
      r.(grants := r.grants[i := r.grants[i].(status := Active)])
    case Revoke(email) =>
      var i := Find(lower, r.grants, Norm(lower, email));
      r.(grants := r.grants[..i] + r.grants[i + 1..])
    case Claim(email) => if Holder(lower, o) == Norm(lower, email) then o else r.(holderEmail := Norm(lower, email))
  }

  /** Never two rows for one address. */
  ghost predicate OneRowEach(lower: Lowering, rows: seq<Row>) {
    forall i, j :: 0 <= i < j < |rows| ==> Norm(lower, rows[i].email) != Norm(lower, rows[j].email)
  }

  ghost predicate HasActiveRow(lower: Lowering, rows: seq<Row>, e: string) {
    exists i :: 0 <= i < |rows| && Norm(lower, rows[i].email) == e && rows[i].status == Active
  }

  // ---------------------------------------------------------------- one call, spelled out

  /** Characters an address may hold beside its '@'. */
  predicate AddressText(s: string) {
    s != "" && forall i | 0 <= i < |s| :: !IsSpace(s[i]) && s[i] !in {'|', '&', '"', '\'', '\\', '@'}
  }

  predicate InParts(e: string, local: string, host: string, end: string) {
    e == local + "@" + host + "." + end && AddressText(local) && AddressText(host) && AddressText(end)
  }

  /** An address reads local@host.end. */
  lemma EmailIs(e: string)
    ensures ValidEmail(e) <==> exists local, host, end :: InParts(e, local, host, end)
  {
    if ValidEmail(e) {
      var a, d :| 0 < a < |e| && a + 1 < d < |e| - 1 && e[a] == '@' && e[d] == '.'
        && forall i | 0 <= i < |e| && i != a :: !Banned(e[i]);
      EmailParts(e, a, d);
      assert InParts(e, e[..a], e[a + 1..d], e[d + 1..]);
    }
    if local, host, end :| InParts(e, local, host, end) {
      PartsEmail(local, host, end);
    }
  }

  lemma EmailParts(e: string, a: nat, d: nat)
    requires 0 < a && a + 1 < d < |e| - 1 && e[a] == '@' && e[d] == '.'
    ensures e == e[..a] + "@" + e[a + 1..d] + "." + e[d + 1..]
  {
  }

  lemma PartsEmail(local: string, host: string, end: string)
    requires AddressText(local) && AddressText(host) && AddressText(end)
    ensures ValidEmail(local + "@" + host + "." + end)
  {
    var e := local + "@" + host + "." + end;
    var a, d := |local|, |local| + 1 + |host|;
    assert e[a] == '@' && e[d] == '.';
    forall i | 0 <= i < |e| && i != a
      ensures !Banned(e[i])
    {
      if i < a {
        assert e[i] == local[i];
      } else if i < d {
        assert e[i] == host[i - a - 1];
      } else if i > d {
        assert e[i] == end[i - d - 1];
      }
    }
  }

  /** Whoever is on record: the flat holder, or the nested one where there is no flat one. */
  function OnRecord(o: Ownership): string {
    if o.holderEmail == "" then o.nestedHolder else o.holderEmail
  }

  ghost predicate HasRow(lower: Lowering, rows: seq<Row>, e: string) {
    exists i :: 0 <= i < |rows| && lower(Trim(rows[i].email)) == e
  }

  /** Which calls are carried out. */
  lemma AcceptsIs(lower: Lowering, o: Ownership, c: Call)
    ensures var e := lower(Trim(c.email)); var holder := lower(Trim(OnRecord(o)));
      Accepts(lower, o, c) <==>
        match c
        case Grant(_, role) => ValidEmail(e) && role in {"member", "admin"} && (holder == "" || holder != e)
        case Activate(_) => HasRow(lower, o.grants, e)
        case Revoke(_) => HasRow(lower, o.grants, e)
        case Claim(_) => ValidEmail(e) && (holder == "" || holder == e)
  {
  }

  /** The rows of one address changed, every other as it was. */
  ghost predicate RowsOf(lower: Lowering, before: seq<Row>, after: seq<Row>, e: string, row: Row -> Row) {
    |after| == |before| && forall i :: 0 <= i < |before| ==>
      after[i] == if lower(Trim(before[i].email)) == e then row(before[i]) else before[i]
  }

  ghost predicate RowsWithout(lower: Lowering, before: seq<Row>, after: seq<Row>, e: string) {
    exists i :: 0 <= i < |before| && lower(Trim(before[i].email)) == e && after == before[..i] + before[i + 1..]
  }

  /** And what they do. A call that is carried out and writes the record writes the holder flat. */
  lemma AppliedIs(lower: Lowering, o: Ownership, c: Call)
    requires OneRowEach(lower, o.grants) && Accepts(lower, o, c)
    ensures var e := lower(Trim(c.email)); var a := Apply(lower, o, c);
      && a.managedBy == o.managedBy && a.owner == o.owner && a.nestedHolder == o.nestedHolder
      && match c
         case Grant(_, role) =>
           && a.holderEmail == OnRecord(o)
           && (if HasRow(lower, o.grants, e) then RowsOf(lower, o.grants, a.grants, e, (r: Row) => r.(role := role))
               else a.grants == o.grants + [Row(e, role, Pending)])
         case Activate(_) =>
           a.holderEmail == OnRecord(o) && RowsOf(lower, o.grants, a.grants, e, (r: Row) => r.(status := Active))
         case Revoke(_) => a.holderEmail == OnRecord(o) && RowsWithout(lower, o.grants, a.grants, e)
         case Claim(_) =>
           a.grants == o.grants && (if lower(Trim(OnRecord(o))) == e then a == o else a.holderEmail == e)
  {
    var i := Find(lower, o.grants, Norm(lower, c.email));
    if i < |o.grants| {
      forall j | 0 <= j < |o.grants| && j != i {
        RowsDiffer(lower, o.grants, i, j);
      }
    }
  }

  /** Who can open, by place: the holder where there is one, then the active rows' addresses. */
  lemma WhoIs(lower: Lowering, o: Ownership)
    ensures var holder := lower(Trim(OnRecord(o)));
      WhoCanOpen(lower, o) == (if holder == "" then [] else [holder]) + ActiveOnes(lower, o.grants)
  {
  }

  // ---------------------------------------------------------------- one call

  /** What no call disturbs: one row an address, the holder once set, management and ownership. */
  lemma CallKeeps(lower: Lowering, o: Ownership, c: Call)
    requires Lowers(lower) && OneRowEach(lower, o.grants)
    ensures var a := Apply(lower, o, c);
      && OneRowEach(lower, a.grants)
      && (Holder(lower, o) != "" ==> Holder(lower, a) == Holder(lower, o))
      && a.managedBy == o.managedBy && a.owner == o.owner
      && (!Accepts(lower, o, c) ==> a == o)
  {
    CallKeepsRows(lower, o, c);
    if Accepts(lower, o, c) && c.Claim? {
      NormTwice(lower, c.email);
    }
  }

  lemma CallKeepsRows(lower: Lowering, o: Ownership, c: Call)
    requires Lowers(lower) && OneRowEach(lower, o.grants)
    ensures OneRowEach(lower, Apply(lower, o, c).grants)
  {
    if Accepts(lower, o, c) {
      var i := Find(lower, o.grants, Norm(lower, c.email));
      match c
      case Grant(email, role) =>
        NormTwice(lower, email);
        if i < |o.grants| {
          OneRowSame(lower, o.grants, i, o.grants[i].(role := role));
        } else {
          OneRowMore(lower, o.grants, Row(Norm(lower, email), role, Pending));
        }
      case Activate(_) => OneRowSame(lower, o.grants, i, o.grants[i].(status := Active));
      case Revoke(_) => OneRowLess(lower, o.grants, i);
      case Claim(_) =>
    }
  }

  lemma OneRowSame(lower: Lowering, rows: seq<Row>, k: nat, row: Row)
    requires OneRowEach(lower, rows) && k < |rows| && row.email == rows[k].email
    ensures OneRowEach(lower, rows[k := row])
  {
    var after := rows[k := row];
    forall i, j | 0 <= i < j < |after|
      ensures Norm(lower, after[i].email) != Norm(lower, after[j].email)
    {
      assert after[i].email == rows[i].email && after[j].email == rows[j].email;
    }
  }

  lemma OneRowMore(lower: Lowering, rows: seq<Row>, row: Row)
    requires OneRowEach(lower, rows)
    requires forall i :: 0 <= i < |rows| ==> Norm(lower, rows[i].email) != Norm(lower, row.email)
    ensures OneRowEach(lower, rows + [row])
  {
  }

  lemma OneRowLess(lower: Lowering, rows: seq<Row>, k: nat)
    requires OneRowEach(lower, rows) && k < |rows|
    ensures OneRowEach(lower, rows[..k] + rows[k + 1..])
  {
    var after := rows[..k] + rows[k + 1..];
    forall i, j | 0 <= i < j < |after|
      ensures Norm(lower, after[i].email) != Norm(lower, after[j].email)
    {
      LeftRow(rows, k, i);
      LeftRow(rows, k, j);
    }
  }

  /** With one row an address, an address is active exactly when its row is. */
  lemma SoleRow(lower: Lowering, rows: seq<Row>, i: nat)
    requires OneRowEach(lower, rows) && i < |rows|
    ensures HasActiveRow(lower, rows, Norm(lower, rows[i].email)) <==> rows[i].status == Active
  {
  }

  lemma RowReplaced(lower: Lowering, rows: seq<Row>, i: nat, row: Row, e: string)
    requires OneRowEach(lower, rows) && i < |rows| && Norm(lower, row.email) == Norm(lower, rows[i].email)
    ensures HasActiveRow(lower, rows[i := row], e) <==>
      if Norm(lower, row.email) == e then row.status == Active else HasActiveRow(lower, rows, e)
  {
    var after := rows[i := row];
    if Norm(lower, row.email) == e {
      SoleRow(lower, after, i);
    } else {
      if HasActiveRow(lower, rows, e) {
        var j :| 0 <= j < |rows| && Norm(lower, rows[j].email) == e && rows[j].status == Active;
        assert after[j] == rows[j];
      }
    }
  }

  lemma RowAdded(lower: Lowering, rows: seq<Row>, row: Row, e: string)
    requires row.status == Pending
    ensures HasActiveRow(lower, rows + [row], e) <==> HasActiveRow(lower, rows, e)
  {
    if HasActiveRow(lower, rows, e) {
      var j :| 0 <= j < |rows| && Norm(lower, rows[j].email) == e && rows[j].status == Active;
      assert (rows + [row])[j] == rows[j];
    }
  }

  lemma RowRemoved(lower: Lowering, rows: seq<Row>, i: nat, e: string)
    requires OneRowEach(lower, rows) && i < |rows|
    ensures HasActiveRow(lower, rows[..i] + rows[i + 1..], e)
       <==> Norm(lower, rows[i].email) != e && HasActiveRow(lower, rows, e)
  {
    ActiveRowLeft(lower, rows, i, e);
    if Norm(lower, rows[i].email) != e && HasActiveRow(lower, rows, e) {
      ActiveRowStays(lower, rows, i, e);
    }
  }

  lemma ActiveRowStays(lower: Lowering, rows: seq<Row>, i: nat, e: string)
    requires i < |rows| && Norm(lower, rows[i].email) != e && HasActiveRow(lower, rows, e)
    ensures HasActiveRow(lower, rows[..i] + rows[i + 1..], e)
  {
    var after := rows[..i] + rows[i + 1..];
    var j :| 0 <= j < |rows| && Norm(lower, rows[j].email) == e && rows[j].status == Active;
    if j < i {
      assert after[j] == rows[j];
    } else {
      assert after[j - 1] == rows[j];
    }
  }

  lemma ActiveRowLeft(lower: Lowering, rows: seq<Row>, i: nat, e: string)
    requires OneRowEach(lower, rows) && i < |rows|
    ensures HasActiveRow(lower, rows[..i] + rows[i + 1..], e) ==>
      Norm(lower, rows[i].email) != e && HasActiveRow(lower, rows, e)
  {
    var after := rows[..i] + rows[i + 1..];
    if HasActiveRow(lower, after, e) {
      var j :| 0 <= j < |after| && Norm(lower, after[j].email) == e && after[j].status == Active;
      var was := if j < i then j else j + 1;
      LeftRow(rows, i, j);
      assert Norm(lower, rows[was].email) == e && rows[was].status == Active;
      RowsDiffer(lower, rows, was, i);
    }
  }

  lemma LeftRow(rows: seq<Row>, i: nat, j: nat)
    requires i < |rows| && j < |rows| - 1
    ensures (rows[..i] + rows[i + 1..])[j] == rows[if j < i then j else j + 1]
  {
  }

  lemma RowsDiffer(lower: Lowering, rows: seq<Row>, i: nat, j: nat)
    requires OneRowEach(lower, rows) && i < |rows| && j < |rows| && i != j
    ensures Norm(lower, rows[i].email) != Norm(lower, rows[j].email)
  {
    var least, most := if i < j then i else j, if i < j then j else i;
    assert Norm(lower, rows[least].email) != Norm(lower, rows[most].email);
  }

  /** How one call moves the active rows: an activation adds its address, a revocation takes its
      address away, and nothing else changes any. */
  lemma CallMovesAccess(lower: Lowering, o: Ownership, c: Call, e: string)
    requires OneRowEach(lower, o.grants)
    ensures HasActiveRow(lower, Apply(lower, o, c).grants, e) <==>
      if Accepts(lower, o, c) && c.Activate? && Norm(lower, c.email) == e then true
      else if Accepts(lower, o, c) && c.Revoke? && Norm(lower, c.email) == e then false
      else HasActiveRow(lower, o.grants, e)
  {
    if Accepts(lower, o, c) {
      match c
      case Grant(email, role) => GrantMoves(lower, o, email, role, e);
      case Activate(email) => ActivateMoves(lower, o, email, e);
      case Revoke(email) => RevokeMoves(lower, o, email, e);
      case Claim(_) =>
    }
  }

  lemma GrantMoves(lower: Lowering, o: Ownership, email: string, role: string, e: string)
    requires OneRowEach(lower, o.grants) && Accepts(lower, o, Grant(email, role))
    ensures HasActiveRow(lower, Apply(lower, o, Grant(email, role)).grants, e) <==> HasActiveRow(lower, o.grants, e)
  {
    var i := Find(lower, o.grants, Norm(lower, email));
    if i < |o.grants| {
      RowReplaced(lower, o.grants, i, o.grants[i].(role := role), e);
      SoleRow(lower, o.grants, i);
    } else {
      RowAdded(lower, o.grants, Row(Norm(lower, email), role, Pending), e);
    }
  }

  lemma ActivateMoves(lower: Lowering, o: Ownership, email: string, e: string)
    requires OneRowEach(lower, o.grants) && Accepts(lower, o, Activate(email))
    ensures HasActiveRow(lower, Apply(lower, o, Activate(email)).grants, e)
       <==> Norm(lower, email) == e || HasActiveRow(lower, o.grants, e)
  {
    var i := Find(lower, o.grants, Norm(lower, email));
    RowReplaced(lower, o.grants, i, o.grants[i].(status := Active), e);
  }

  lemma RevokeMoves(lower: Lowering, o: Ownership, email: string, e: string)
    requires OneRowEach(lower, o.grants) && Accepts(lower, o, Revoke(email))
    ensures HasActiveRow(lower, Apply(lower, o, Revoke(email)).grants, e)
       <==> Norm(lower, email) != e && HasActiveRow(lower, o.grants, e)
  {
    RowRemoved(lower, o.grants, Find(lower, o.grants, Norm(lower, email)), e);
  }

  // ---------------------------------------------------------------- every run

  function AfterAll(lower: Lowering, o: Ownership, calls: seq<Call>): Ownership {
    if calls == [] then o else Apply(lower, AfterAll(lower, o, calls[..|calls| - 1]), calls[|calls| - 1])
  }

  /** Has e been activated since it was last revoked? Refused calls do not count. */
  predicate Activated(lower: Lowering, o: Ownership, calls: seq<Call>, e: string) {
    if calls == [] then false else
    var before, c := calls[..|calls| - 1], calls[|calls| - 1];
    if Accepts(lower, AfterAll(lower, o, before), c) && Norm(lower, c.email) == e && (c.Activate? || c.Revoke?)
    then c.Activate?
    else Activated(lower, o, before, e)
  }

  /** Over every run from a box with no grants: one row an address, the holder once set stays,
      management and ownership untouched, and the active rows are exactly the addresses activated
      since their last revocation. */
  lemma {:induction false} EveryRun(lower: Lowering, o: Ownership, calls: seq<Call>, e: string)
    requires Lowers(lower) && o.grants == []
    ensures var a := AfterAll(lower, o, calls);
      && OneRowEach(lower, a.grants)
      && (Holder(lower, o) != "" ==> Holder(lower, a) == Holder(lower, o))
      && a.managedBy == o.managedBy && a.owner == o.owner
      && (HasActiveRow(lower, a.grants, e) <==> Activated(lower, o, calls, e))
  {
    if calls != [] {
      var before, c := calls[..|calls| - 1], calls[|calls| - 1];
      EveryRun(lower, o, before, e);
      CallKeeps(lower, AfterAll(lower, o, before), c);
      CallMovesAccess(lower, AfterAll(lower, o, before), c, e);
    }
  }

  /** The holder, once there is one, is the holder after any further calls. */
  lemma {:induction false} HolderStays(lower: Lowering, o: Ownership, calls: seq<Call>, more: seq<Call>)
    requires Lowers(lower) && o.grants == [] && Holder(lower, AfterAll(lower, o, calls)) != ""
    ensures Holder(lower, AfterAll(lower, o, calls + more)) == Holder(lower, AfterAll(lower, o, calls))
    decreases |more|
  {
    if more == [] {
      assert calls + more == calls;
    } else {
      var n := |more| - 1;
      HolderStays(lower, o, calls, more[..n]);
      OneMoreCall(lower, o, calls, more);
      EveryRun(lower, o, calls + more[..n], "");
      CallKeeps(lower, AfterAll(lower, o, calls + more[..n]), more[n]);
    }
  }

  lemma OneMoreCall(lower: Lowering, o: Ownership, calls: seq<Call>, more: seq<Call>)
    requires more != []
    ensures var n := |more| - 1;
      AfterAll(lower, o, calls + more) == Apply(lower, AfterAll(lower, o, calls + more[..n]), more[n])
  {
    assert (calls + more)[..|calls + more| - 1] == calls + more[..|more| - 1];
  }

  // ---------------------------------------------------------------- who can open

  /** The addresses of the active rows, in order. */
  function ActiveOnes(lower: Lowering, rows: seq<Row>): seq<string> {
    if rows == [] then []
    else (if rows[0].status == Active then [Norm(lower, rows[0].email)] else []) + ActiveOnes(lower, rows[1..])
  }

  /** whoCanOpen: the holder first, then the active rows. */
  function WhoCanOpen(lower: Lowering, o: Ownership): seq<string> {
    (if Holder(lower, o) != "" then [Holder(lower, o)] else []) + ActiveOnes(lower, o.grants)
  }

  lemma {:induction false} ActiveOnesAre(lower: Lowering, rows: seq<Row>, e: string)
    ensures e in ActiveOnes(lower, rows) <==> HasActiveRow(lower, rows, e)
  {
    if rows != [] {
      ActiveOnesAre(lower, rows[1..], e);
      if HasActiveRow(lower, rows, e) {
        var j :| 0 <= j < |rows| && Norm(lower, rows[j].email) == e && rows[j].status == Active;
        assert j > 0 ==> rows[1..][j - 1] == rows[j];
      }
      if HasActiveRow(lower, rows[1..], e) {
        var j :| 0 <= j < |rows[1..]| && Norm(lower, rows[1..][j].email) == e && rows[1..][j].status == Active;
        assert rows[j + 1] == rows[1..][j];
      }
    }
  }

  ghost predicate Distinct(s: seq<string>) {
    forall i, j :: 0 <= i < j < |s| ==> s[i] != s[j]
  }

  lemma {:induction false} ActiveOnesDistinct(lower: Lowering, rows: seq<Row>)
    requires OneRowEach(lower, rows)
    ensures Distinct(ActiveOnes(lower, rows))
  {
    if rows != [] {
      var rest := rows[1..];
      ActiveOnesDistinct(lower, rest);
      ActiveOnesAre(lower, rest, Norm(lower, rows[0].email));
      assert !HasActiveRow(lower, rest, Norm(lower, rows[0].email));
      assert forall k :: 0 <= k < |ActiveOnes(lower, rest)| ==> ActiveOnes(lower, rest)[k] in ActiveOnes(lower, rest);
    }
  }

  /** An address other than the holder can open the mineral exactly when it has been activated
      since it was last revoked; the holder always can. */
  lemma AccessIsActivation(lower: Lowering, o: Ownership, calls: seq<Call>, e: string)
    requires Lowers(lower) && o.grants == []
    ensures var a := AfterAll(lower, o, calls);
      e in WhoCanOpen(lower, a) <==> (e == Holder(lower, a) && e != "") || Activated(lower, o, calls, e)
  {
    var a := AfterAll(lower, o, calls);
    EveryRun(lower, o, calls, e);
    ActiveOnesAre(lower, a.grants, e);
  }

  lemma OneInFront(x: string, rest: seq<string>)
    requires Distinct(rest)
    ensures Distinct([x] + rest) <==> x !in rest
  {
    if x in rest {
      var k :| 0 <= k < |rest| && rest[k] == x;
      assert ([x] + rest)[0] == ([x] + rest)[k + 1];
    }
  }

  /** The list names nobody twice, but for a holder who claimed while a live grant of theirs
      stood: that is the one way, and it is exactly when it happens. */
  lemma ListedTwice(lower: Lowering, o: Ownership, calls: seq<Call>)
    requires Lowers(lower) && o.grants == []
    ensures var a := AfterAll(lower, o, calls);
      Distinct(WhoCanOpen(lower, a)) <==> !(Holder(lower, a) != "" && Activated(lower, o, calls, Holder(lower, a)))
  {
    var a := AfterAll(lower, o, calls);
    EveryRun(lower, o, calls, Holder(lower, a));
    ActiveOnesAre(lower, a.grants, Holder(lower, a));
    ActiveOnesDistinct(lower, a.grants);
    var w, rest := WhoCanOpen(lower, a), ActiveOnes(lower, a.grants);
    if Holder(lower, a) != "" {
      assert w == [Holder(lower, a)] + rest;
      OneInFront(Holder(lower, a), rest);
    } else {
      assert w == rest;
    }
  }

  /** And it does happen on any holderless box to any address: grant, activate, claim. */
  lemma ClaimedWhileGranted(lower: Lowering, o: Ownership, email: string)
    requires Lowers(lower) && o.grants == [] && Holder(lower, o) == "" && ValidEmail(Norm(lower, email))
    ensures var calls := [Call.Grant(email, "member"), Call.Activate(email), Call.Claim(email)];
      Holder(lower, AfterAll(lower, o, calls)) == Norm(lower, email)
      && Activated(lower, o, calls, Norm(lower, email))
  {
    var g, v, m := Call.Grant(email, "member"), Call.Activate(email), Call.Claim(email);
    var o1, o2 := Apply(lower, o, g), Apply(lower, Apply(lower, o, g), v);
    GrantedFirst(lower, o, email);
    var calls := [g, v, m];
    assert calls[..2] == [g, v] && [g, v][..1] == [g] && [g][..0] == [];
    assert AfterAll(lower, o, [g]) == o1;
    assert AfterAll(lower, o, [g, v]) == o2;
    assert Activated(lower, o, [g, v], Norm(lower, email));
    ClaimsHolderless(lower, o2, email);
  }

  lemma GrantedFirst(lower: Lowering, o: Ownership, email: string)
    requires Lowers(lower) && o.grants == [] && Holder(lower, o) == "" && ValidEmail(Norm(lower, email))
    ensures var o1 := Apply(lower, o, Call.Grant(email, "member"));
      && Accepts(lower, o1, Call.Activate(email)) && Holder(lower, o1) == ""
      && Holder(lower, Apply(lower, o1, Call.Activate(email))) == ""
  {
    var o1 := Apply(lower, o, Call.Grant(email, "member"));
    NormTwice(lower, email);
    assert o1.grants == [Row(Norm(lower, email), "member", Pending)];
    assert Norm(lower, o1.grants[0].email) == Norm(lower, email);
    assert Find(lower, o1.grants, Norm(lower, email)) == 0;
  }

  lemma ClaimsHolderless(lower: Lowering, o: Ownership, email: string)
    requires Lowers(lower) && Holder(lower, o) == "" && ValidEmail(Norm(lower, email))
    ensures Accepts(lower, o, Call.Claim(email))
    ensures Holder(lower, Apply(lower, o, Call.Claim(email))) == Norm(lower, email)
  {
    NormTwice(lower, email);
    assert Norm(lower, email) != "";
  }

  // ---------------------------------------------------------------- the verbs

  datatype Device = Device(slug: string, account: string, revoked: bool)

  /** A box: its ownership.json and its device roster. */
  class Box {
    var record: Ownership
    var devices: seq<Device>
    const lower: Lowering

    constructor (o: Ownership, d: seq<Device>, lower: Lowering)
      ensures record == o && devices == d && this.lower == lower
    {
      record, devices := o, d;
      this.lower := lower;
    }

    method Grant(email: string, role: string) returns (ok: bool)
      modifies this`record
      ensures record == Apply(lower, old(record), Call.Grant(email, role))
      ensures ok == Accepts(lower, old(record), Call.Grant(email, role))
    {
      var e := Norm(lower, email);
      if !ValidEmail(e) || role !in ROLES {
        return false;
      }
      var o := Read(record);
      if Norm(lower, o.holderEmail) != "" && Norm(lower, o.holderEmail) == e {
        return false;
      }
      var i := Find(lower, o.grants, e);
      if i < |o.grants| {
        o := o.(grants := o.grants[i := o.grants[i].(role := role)]);
      } else {
        o := o.(grants := o.grants + [Row(e, role, Pending)]);
      }
      record := o;
      ok := true;
    }

    method Activate(email: string) returns (ok: bool)
      modifies this`record
      ensures record == Apply(lower, old(record), Call.Activate(email))
      ensures ok == Accepts(lower, old(record), Call.Activate(email))
    {
      var o := Read(record);
      var i := Find(lower, o.grants, Norm(lower, email));
      if i == |o.grants| {
        return false;
      }
      record := o.(grants := o.grants[i := o.grants[i].(status := Active)]);
      ok := true;
    }

    method Revoke(email: string) returns (ok: bool)
      modifies this`record
      ensures record == Apply(lower, old(record), Call.Revoke(email))
      ensures ok == Accepts(lower, old(record), Call.Revoke(email))
    {
      var o := Read(record);
      var i := Find(lower, o.grants, Norm(lower, email));
      if i == |o.grants| {
        return false;
      }
      record := o.(grants := o.grants[..i] + o.grants[i + 1..]);
      ok := true;
    }

    method Claim(email: string) returns (ok: bool)
      modifies this`record
      ensures record == Apply(lower, old(record), Call.Claim(email))
      ensures ok == Accepts(lower, old(record), Call.Claim(email))
    {
      var e := Norm(lower, email);
      if !ValidEmail(e) {
        return false;
      }
      var o := Read(record);
      var held := Norm(lower, o.holderEmail);
      if held != "" && held != e {
        return false;
      }
      if held == e {
        return true;
      }
      record := o.(holderEmail := e);
      ok := true;
    }

    /** revokeWithCascade: the grant, then every machine that names the account. Machines that
        name nobody are counted, not cut. */
    method RevokeWithCascade(email: string) returns (ok: bool, cut: seq<string>, unattributed: nat)
      modifies this
      ensures ok == Accepts(lower, old(record), Call.Revoke(Norm(lower, email)))
      ensures record == Apply(lower, old(record), Call.Revoke(Norm(lower, email)))
      ensures !ok ==> devices == old(devices)
      ensures ok ==> |devices| == |old(devices)| && forall k :: 0 <= k < |devices| ==>
        devices[k] == Device(old(devices)[k].slug, old(devices)[k].account,
                             old(devices)[k].revoked || lower(Trim(old(devices)[k].account)) == lower(Trim(email)))
      ensures ok ==> cut == Cut(lower, old(devices), Norm(lower, email))
      ensures ok ==> unattributed == Unattributed(lower, old(devices), Norm(lower, email))
    {
      var e := Norm(lower, email);
      cut, unattributed := [], 0;
      ok := Revoke(e);
      if ok {
        cut, unattributed := CutMachines(e);
      }
    }

    /** The loop over the roster. */
    method CutMachines(e: string) returns (cut: seq<string>, unattributed: nat)
      modifies this`devices
      ensures CutFor(lower, old(devices), devices, e)
      ensures cut == Cut(lower, old(devices), e) && unattributed == Unattributed(lower, old(devices), e)
    {
      cut, unattributed := [], 0;
      ghost var before := devices;
      for k := 0 to |devices|
        invariant |devices| == |before| && forall j :: k <= j < |before| ==> devices[j] == before[j]
        invariant forall j :: 0 <= j < k ==>
          devices[j] == if Names(lower, before[j], e) then before[j].(revoked := true) else before[j]
        invariant cut == Cut(lower, before[..k], e) && unattributed == Unattributed(lower, before[..k], e)
      {
        var d := devices[k];
        assert before[..k + 1][..k] == before[..k];
        if !d.revoked {
          if Norm(lower, d.account) == e {
            devices := devices[k := d.(revoked := true)];
            cut := cut + [d.slug];
          } else if Norm(lower, d.account) == "" {
            unattributed := unattributed + 1;
          }
        }
      }
      assert before[..|before|] == before;
    }
  }

  /** Exactly the machines that name the account are cut, and nothing else about any changes. */
  predicate CutFor(lower: Lowering, before: seq<Device>, after: seq<Device>, e: string) {
    && |after| == |before|
    && forall k | 0 <= k < |after| ::
         after[k] == if Names(lower, before[k], e) then before[k].(revoked := true) else before[k]
  }

  /** A machine still enrolled that names the account. */
  predicate Names(lower: Lowering, d: Device, e: string) {
    !d.revoked && Norm(lower, d.account) == e
  }

  function Cut(lower: Lowering, devices: seq<Device>, e: string): seq<string> {
    if devices == [] then [] else
    var n := |devices| - 1;
    Cut(lower, devices[..n], e) + if Names(lower, devices[n], e) then [devices[n].slug] else []
  }

  function Unattributed(lower: Lowering, devices: seq<Device>, e: string): nat {
    if devices == [] then 0 else
    var n := |devices| - 1;
    var names := Norm(lower, devices[n].account);
    Unattributed(lower, devices[..n], e) + if !devices[n].revoked && names != e && names == "" then 1 else 0
  }

  /** The machines cut, by place, and how many machines still enrolled name nobody. */
  lemma {:induction false} CutIs(lower: Lowering, devices: seq<Device>, e: string)
    ensures |Cut(lower, devices, e)| == |set k | 0 <= k < |devices| && Cuts(lower, devices[k], e)|
    ensures forall k :: 0 <= k < |devices| && Cuts(lower, devices[k], e) ==> devices[k].slug in Cut(lower, devices, e)
    ensures Unattributed(lower, devices, e) == |set k | 0 <= k < |devices| && Nameless(lower, devices[k], e)|
  {
    if devices != [] {
      var n := |devices| - 1;
      CutIs(lower, devices[..n], e);
      assert devices[..n] + [devices[n]] == devices;
      OneMoreIndex(n, set k | 0 <= k < n && Cuts(lower, devices[..n][k], e),
        set k | 0 <= k < |devices| && Cuts(lower, devices[k], e));
      OneMoreIndex(n, set k | 0 <= k < n && Nameless(lower, devices[..n][k], e),
        set k | 0 <= k < |devices| && Nameless(lower, devices[k], e));
      forall k | 0 <= k < |devices| && Cuts(lower, devices[k], e)
        ensures devices[k].slug in Cut(lower, devices, e)
      {
        assert k < n ==> devices[..n][k] == devices[k];
      }
    }
  }

  lemma OneMoreIndex(n: nat, few: set<int>, all: set<int>)
    requires forall k :: k in few <==> 0 <= k < n && k in all
    requires forall k :: k in all ==> 0 <= k <= n
    ensures |all| == |few| + (if n in all then 1 else 0)
  {
    var more := if n in all then few + {n} else few;
    forall k
      ensures k in all <==> k in more
    {
      assert k in few <==> 0 <= k < n && k in all;
    }
    assert all == more;
  }

  /** Still enrolled, and the account it names is this one; or it names none at all. */
  predicate Cuts(lower: Lowering, d: Device, e: string) {
    !d.revoked && lower(Trim(d.account)) == e
  }

  predicate Nameless(lower: Lowering, d: Device, e: string) {
    !d.revoked && lower(Trim(d.account)) == "" && e != ""
  }
}
