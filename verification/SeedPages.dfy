/** Seeding a member's pages from the engine's templates, and deleting one for good. */
module SeedPages {
  import opened Bytes

  /** A manifest row; an empty id stands for a row without one, or no row at all. */
  datatype Row = Row(id: string, title: string, seed: bool)

  datatype Manifest = Missing | Unreadable | Listing(rows: seq<Row>)

  /** A member's dashboard. Unreadable tombstones are none; `cards` and `ownership` are the two
      other files the seeder makes when they are missing. */
  datatype Dashboard = Dashboard(manifest: Manifest, pages: map<string, string>, tombstones: seq<string>,
                                 version: nat, cards: Option<string>, ownership: Option<string>)

  /** What one engine version ships. */
  datatype Template = Template(rows: seq<Row>, pages: map<string, string>, version: nat,
                               cards: string, ownership: string)

  const HTML := ".html"

  /** f.replace(/\.html$/, '') */
  function IdOf(file: string): string {
    if |file| >= |HTML| && file[|file| - |HTML|..] == HTML then file[..|file| - |HTML|] else file
  }

  lemma IdOfPage(id: string)
    ensures IdOf(id + HTML) == id
  {
    assert (id + HTML)[|id|..] == HTML;
  }

  // ---------------------------------------------------------------- one seeding

  /** The template files that are created: not there yet, and not deleted by the member. */
  function NewFiles(d: Dashboard, t: Template): set<string> {
    set f | f in t.pages && f !in d.pages && IdOf(f) !in d.tombstones
  }

  /** The template rows that are listed: for a page created now, and not listed already. */
  function Additions(rows: seq<Row>, have: set<string>, files: set<string>): seq<Row> {
    if rows == [] then [] else
    (if rows[0].id != "" && rows[0].id !in have && rows[0].id + HTML in files then [rows[0].(seed := true)] else [])
    + Additions(rows[1..], have, files)
  }

  function Ids(rows: seq<Row>): set<string> {
    set i | 0 <= i < |rows| :: rows[i].id
  }

  /** A manifest made from the template alone: every row ours. */
  function AllSeed(rows: seq<Row>): seq<Row> {
    seq(|rows|, i requires 0 <= i < |rows| => if rows[i].id != "" then rows[i].(seed := true) else rows[i])
  }

  function SeededManifest(d: Dashboard, t: Template): Manifest {
    match d.manifest
    case Missing => Listing(AllSeed(t.rows))
    case Unreadable => Unreadable
    case Listing(rows) => Listing(rows + Additions(t.rows, Ids(rows), NewFiles(d, t)))
  }

  function PagesFrom(t: Template, files: set<string>): map<string, string> {
    map f | f in files && f in t.pages :: t.pages[f]
  }

  function Seeded(d: Dashboard, t: Template): Dashboard {
    Dashboard(SeededManifest(d, t), d.pages + PagesFrom(t, NewFiles(d, t)), d.tombstones, t.version,
              Some(if d.cards.Some? then d.cards.value else t.cards),
              Some(if d.ownership.Some? then d.ownership.value else t.ownership))
  }

  function Created(d: Dashboard, t: Template): nat {
    (if d.manifest.Missing? then 1 else 0) + |NewFiles(d, t)| + (if d.cards.None? then 1 else 0)
    + (if d.ownership.None? then 1 else 0)
  }

  // ---------------------------------------------------------------- one deletion

  predicate SlugChar(c: char) {
    'a' <= c <= 'z' || '0' <= c <= '9' || c in {'.', '_', '-'}
  }

  predicate Slug(id: string) {
    && 1 <= |id| <= 81 && SlugChar(id[0]) && id[0] !in {'.', '_', '-'}
    && (forall i | 0 <= i < |id| :: SlugChar(id[i]))
    && !(exists i | 0 <= i < |id| - 1 :: id[i] == '.' && id[i + 1] == '.')
  }

  function Unlisted(rows: seq<Row>, id: string): seq<Row> {
    if rows == [] then [] else (if rows[0].id == id then [] else [rows[0]]) + Unlisted(rows[1..], id)
  }

  predicate Listed(d: Dashboard, id: string) {
    d.manifest.Listing? && id in Ids(d.manifest.rows)
  }

  predicate Deletes(d: Dashboard, id: string) {
    Slug(id) && (Listed(d, id) || id + HTML in d.pages)
  }

  function Deleted(d: Dashboard, id: string): Dashboard {
    if !Deletes(d, id) then d else
    d.(manifest := if Listed(d, id) then Listing(Unlisted(d.manifest.rows, id)) else d.manifest,
       pages := d.pages - {id + HTML},
       tombstones := if id in d.tombstones then d.tombstones else d.tombstones + [id])
  }

  // ---------------------------------------------------------------- what seeding keeps

  lemma {:induction false} AdditionsAre(rows: seq<Row>, have: set<string>, files: set<string>, id: string)
    ensures id in Ids(Additions(rows, have, files))
       <==> id in Ids(rows) && id != "" && id !in have && id + HTML in files
    ensures forall i :: 0 <= i < |Additions(rows, have, files)| ==> Additions(rows, have, files)[i].seed
  {
    if rows != [] {
      AdditionsAre(rows[1..], have, files, id);
      IdsOfConcat([rows[0]], rows[1..], id);
      assert rows == [rows[0]] + rows[1..];
      var first :=
        if rows[0].id != "" && rows[0].id !in have && rows[0].id + HTML in files then [rows[0].(seed := true)] else [];
      IdsOfConcat(first, Additions(rows[1..], have, files), id);
      assert [rows[0]][0].id in Ids([rows[0]]);
      assert first != [] ==> first[0].id in Ids(first);
    }
  }

  lemma IdsOfConcat(a: seq<Row>, b: seq<Row>, id: string)
    ensures id in Ids(a + b) <==> id in Ids(a) || id in Ids(b)
  {
    if id in Ids(a) {
      var i :| 0 <= i < |a| && a[i].id == id;
      assert (a + b)[i].id == id;
    }
    if id in Ids(b) {
      var i :| 0 <= i < |b| && b[i].id == id;
      assert (a + b)[|a| + i].id == id;
    }
  }

  /** Seeding never touches a page that is there, keeps the member's rows first and in order, adds
      only rows of pages created now, and leaves the member's own files alone. */
  lemma SeedingKeeps(d: Dashboard, t: Template, f: string, id: string)
    ensures f in d.pages ==> f in Seeded(d, t).pages && Seeded(d, t).pages[f] == d.pages[f]
    ensures f in Seeded(d, t).pages && f !in d.pages ==>
      f in t.pages && Seeded(d, t).pages[f] == t.pages[f] && IdOf(f) !in d.tombstones
    ensures d.manifest.Listing? ==> Seeded(d, t).manifest.Listing? && d.manifest.rows <= Seeded(d, t).manifest.rows
    ensures d.manifest.Listing? ==>
      (Listed(Seeded(d, t), id) <==> Listed(d, id) || (id != "" && id in Ids(t.rows) && id + HTML in NewFiles(d, t)))
    ensures d.cards.Some? ==> Seeded(d, t).cards == d.cards
    ensures d.ownership.Some? ==> Seeded(d, t).ownership == d.ownership
  {
    if d.manifest.Listing? {
      var rows := d.manifest.rows;
      AdditionsAre(t.rows, Ids(rows), NewFiles(d, t), id);
      IdsOfConcat(rows, Additions(t.rows, Ids(rows), NewFiles(d, t)), id);
    }
  }

  /** Which id a page file stands for, said of the file's name. */
  ghost predicate PageOf(file: string, id: string) {
    file == id + ".html" || (file == id && (|file| < 5 || file[|file| - 5..] != ".html"))
  }

  lemma PageEnds(id: string)
    ensures var file := id + ".html"; |file| >= 5 && file[|file| - 5..] == ".html" && file[..|file| - 5] == id
  {
  }

  lemma IdOfIs(file: string)
    ensures PageOf(file, IdOf(file)) && forall id :: PageOf(file, id) ==> id == IdOf(file)
  {
    if |file| >= 5 && file[|file| - 5..] == ".html" {
      assert file == file[..|file| - 5] + ".html";
    }
    forall id | PageOf(file, id)
      ensures id == IdOf(file)
    {
      PageEnds(id);
    }
  }

  /** What a seeding leaves of a page: what is there stays; a template page that is not there is
      made, with the template's text, unless the member has deleted it; there is nothing else. */
  lemma SeededPage(d: Dashboard, t: Template, f: string, id: string)
    requires PageOf(f, id)
    ensures var e := Seeded(d, t);
      && (f in e.pages <==> f in d.pages || (f in t.pages && id !in d.tombstones))
      && (f in e.pages ==> e.pages[f] == if f in d.pages then d.pages[f] else t.pages[f])
  {
    IdOfIs(f);
  }

  /** The template's ids whose page is made now and that the member's manifest does not list. */
  ghost function NewIds(d: Dashboard, t: Template): set<string> {
    set i | 0 <= i < |t.rows| && t.rows[i].id != "" && !Listed(d, t.rows[i].id)
            && t.rows[i].id + ".html" in t.pages && t.rows[i].id + ".html" !in d.pages
            && t.rows[i].id !in d.tombstones
      :: t.rows[i].id
  }

  /** The rows with these ids, in order and marked as ours. */
  ghost predicate Marked(rows: seq<Row>, added: seq<Row>, ids: set<string>) {
    if rows == [] then added == []
    else if rows[0].id in ids
    then added != [] && added[0] == Row(rows[0].id, rows[0].title, true) && Marked(rows[1..], added[1..], ids)
    else Marked(rows[1..], added, ids)
  }

  lemma {:induction false} AdditionsMarked(rows: seq<Row>, have: set<string>, files: set<string>, ids: set<string>)
    requires forall i :: 0 <= i < |rows| ==>
      (rows[i].id in ids <==> rows[i].id != "" && rows[i].id !in have && rows[i].id + HTML in files)
    ensures Marked(rows, Additions(rows, have, files), ids)
  {
    if rows != [] {
      assert forall i :: 0 <= i < |rows[1..]| ==> rows[1..][i] == rows[i + 1];
      AdditionsMarked(rows[1..], have, files, ids);
      var more := Additions(rows[1..], have, files);
      assert ([rows[0].(seed := true)] + more)[1..] == more && [] + more == more;
    }
  }

  lemma NewIdsAre(d: Dashboard, t: Template, i: nat)
    requires i < |t.rows|
    ensures var id := t.rows[i].id;
      id in NewIds(d, t) <==> id != "" && !Listed(d, id) && id + HTML in NewFiles(d, t)
  {
    IdOfPage(t.rows[i].id);
  }

  /** And of the rest: the member's rows are followed by the template's rows of pages made now, in
      the template's order and marked as ours; a missing manifest becomes the template's; one that
      cannot be read, the tombstones and the member's own files stay. */
  lemma SeededRest(d: Dashboard, t: Template)
    ensures var e := Seeded(d, t);
      && e.tombstones == d.tombstones && e.version == t.version
      && e.cards == (if d.cards.Some? then d.cards else Some(t.cards))
      && e.ownership == (if d.ownership.Some? then d.ownership else Some(t.ownership))
      && (d.manifest.Unreadable? ==> e.manifest.Unreadable?)
      && (d.manifest.Missing? ==> e.manifest.Listing? && AllOurs(t.rows, e.manifest.rows))
      && (d.manifest.Listing? ==>
            && e.manifest.Listing? && d.manifest.rows <= e.manifest.rows
            && Marked(t.rows, e.manifest.rows[|d.manifest.rows|..], NewIds(d, t)))
  {
    if d.manifest.Listing? {
      var rows := d.manifest.rows;
      forall i | 0 <= i < |t.rows| {
        NewIdsAre(d, t, i);
      }
      AdditionsMarked(t.rows, Ids(rows), NewFiles(d, t), NewIds(d, t));
      var added := Additions(t.rows, Ids(rows), NewFiles(d, t));
      assert (rows + added)[|rows|..] == added;
    }
  }

  /** The same rows, those with an id marked as ours. */
  ghost predicate AllOurs(rows: seq<Row>, made: seq<Row>) {
    |made| == |rows| && forall i :: 0 <= i < |rows| ==>
      made[i] == Row(rows[i].id, rows[i].title, rows[i].seed || rows[i].id != "")
  }

  /** How many files a seeding says it made: the manifest, the cards and the ownership record where
      they were missing, and every page made. */
  lemma CreatedIs(d: Dashboard, t: Template)
    ensures Created(d, t) == |Seeded(d, t).pages.Keys - d.pages.Keys| + (if d.manifest == Missing then 1 else 0)
      + (if d.cards == None then 1 else 0) + (if d.ownership == None then 1 else 0)
  {
    assert Seeded(d, t).pages.Keys - d.pages.Keys == NewFiles(d, t);
  }

  /** A tombstoned id is listed after a seeding exactly when it was listed before, or when the
      manifest was missing and the template lists it. */
  lemma TombstonedListing(d: Dashboard, t: Template, id: string)
    requires id in d.tombstones
    ensures Listed(Seeded(d, t), id) <==> Listed(d, id) || (d.manifest.Missing? && id in Ids(t.rows))
    ensures id + HTML in Seeded(d, t).pages <==> id + HTML in d.pages
  {
    IdOfPage(id);
    SeedingKeeps(d, t, id + HTML, id);
    if d.manifest.Missing? {
      if id in Ids(t.rows) {
        var i :| 0 <= i < |t.rows| && t.rows[i].id == id;
        assert AllSeed(t.rows)[i].id == id;
      }
      if id in Ids(AllSeed(t.rows)) {
        var i :| 0 <= i < |t.rows| && AllSeed(t.rows)[i].id == id;
        assert t.rows[i].id == id;
      }
    }
  }

  /** Seeding again from the same template changes nothing. */
  lemma SeedingTwice(d: Dashboard, t: Template)
    ensures Seeded(Seeded(d, t), t) == Seeded(d, t)
  {
    var e := Seeded(d, t);
    assert NewFiles(e, t) == {};
    if e.manifest.Listing? {
      NothingToAdd(t.rows, Ids(e.manifest.rows));
      assert e.manifest.rows + [] == e.manifest.rows;
    }
    assert e.pages + PagesFrom(t, {}) == e.pages;
  }

  lemma {:induction false} NothingToAdd(rows: seq<Row>, have: set<string>)
    ensures Additions(rows, have, {}) == []
  {
    if rows != [] {
      NothingToAdd(rows[1..], have);
    }
  }

  // ---------------------------------------------------------------- deleted pages stay deleted

  /** The page is off the disk and off the list, and remembered as deleted. */
  predicate Gone(d: Dashboard, id: string) {
    id in d.tombstones && id + HTML !in d.pages && !Listed(d, id)
  }

  lemma {:induction false} UnlistedIds(rows: seq<Row>, id: string, other: string)
    ensures other in Ids(Unlisted(rows, id)) <==> other in Ids(rows) && other != id
  {
    if rows != [] {
      UnlistedIds(rows[1..], id, other);
      assert rows == [rows[0]] + rows[1..];
      IdsOfConcat([rows[0]], rows[1..], other);
      IdsOfConcat(if rows[0].id == id then [] else [rows[0]], Unlisted(rows[1..], id), other);
    }
  }

  /** Deleting takes exactly one page away: its file and every row of it, nothing else. */
  lemma DeletingTakesOne(d: Dashboard, id: string, other: string)
    requires Deletes(d, id)
    ensures Gone(Deleted(d, id), id)
    ensures other != id ==> (Listed(Deleted(d, id), other) <==> Listed(d, other))
    ensures Gone(d, other) ==> Gone(Deleted(d, id), other)
    ensures forall f :: f != id + HTML ==> (f in Deleted(d, id).pages <==> f in d.pages)
    ensures forall f :: f != id + HTML && f in d.pages ==> Deleted(d, id).pages[f] == d.pages[f]
  {
    if Listed(d, id) {
      UnlistedIds(d.manifest.rows, id, id);
      UnlistedIds(d.manifest.rows, id, other);
    }
  }

  /** An id a page may have: letters, digits and, behind the first, dots, lines and dashes; at most
      81 characters, and no two dots in a row. */
  ghost predicate PlainId(id: string) {
    && 1 <= |id| <= 81
    && (forall i :: 0 <= i < |id| ==>
          'a' <= id[i] <= 'z' || '0' <= id[i] <= '9' || (i > 0 && id[i] in {'.', '_', '-'}))
    && forall i :: 0 < i < |id| && id[i] == '.' ==> id[i - 1] != '.'
  }

  lemma SlugIs(id: string)
    ensures Slug(id) <==> PlainId(id)
  {
    if PlainId(id) {
      assert forall i :: 0 <= i < |id| ==> SlugChar(id[i]);
      assert forall i :: 0 <= i < |id| - 1 && id[i + 1] == '.' ==> id[i] != '.';
    }
    if Slug(id) {
      forall i | 0 < i < |id| && id[i] == '.'
        ensures id[i - 1] != '.'
      {
        var k := i - 1;
        assert id[k + 1] == '.';
      }
    }
  }

  /** The rows without those of one page, in order. */
  ghost predicate LeftOf(rows: seq<Row>, left: seq<Row>, id: string) {
    if rows == [] then left == []
    else if rows[0].id == id then LeftOf(rows[1..], left, id)
    else left != [] && left[0] == rows[0] && LeftOf(rows[1..], left[1..], id)
  }

  lemma {:induction false} UnlistedLeft(rows: seq<Row>, id: string)
    ensures LeftOf(rows, Unlisted(rows, id), id)
  {
    if rows != [] {
      UnlistedLeft(rows[1..], id);
      assert ([rows[0]] + Unlisted(rows[1..], id))[1..] == Unlisted(rows[1..], id);
      assert [] + Unlisted(rows[1..], id) == Unlisted(rows[1..], id);
    }
  }

  ghost predicate HasRow(rows: seq<Row>, id: string) {
    exists i :: 0 <= i < |rows| && rows[i].id == id
  }

  /** When a deletion is carried out, and all that it does. */
  lemma DeletionIs(d: Dashboard, id: string)
    ensures Deletes(d, id)
       <==> PlainId(id) && (id + ".html" in d.pages || (d.manifest.Listing? && HasRow(d.manifest.rows, id)))
    ensures !Deletes(d, id) ==> Deleted(d, id) == d
    ensures Deletes(d, id) ==> var e := Deleted(d, id);
      && e.pages == d.pages - {id + ".html"}
      && e.tombstones == d.tombstones + (if id in d.tombstones then [] else [id])
      && e.version == d.version && e.cards == d.cards && e.ownership == d.ownership
      && (if d.manifest.Listing? then e.manifest.Listing? && LeftOf(d.manifest.rows, e.manifest.rows, id)
          else e.manifest == d.manifest)
  {
    SlugIs(id);
    if d.manifest.Listing? {
      UnlistedLeft(d.manifest.rows, id);
      if !Listed(d, id) {
        NothingUnlisted(d.manifest.rows, id);
      }
    }
  }

  datatype Event = Seeding(template: Template) | Deletion(id: string)

  function Happens(d: Dashboard, e: Event): Dashboard {
    match e
    case Seeding(t) => Seeded(d, t)
    case Deletion(id) => Deleted(d, id)
  }

  function AfterAll(d: Dashboard, events: seq<Event>): Dashboard {
    if events == [] then d else Happens(AfterAll(d, events[..|events| - 1]), events[|events| - 1])
  }

  /** Over any interleaving of seedings, with templates that change, and deletions, a manifest
      that is readable stays so and a page once deleted stays deleted. */
  lemma {:induction false} DeletedStaysDeleted(d: Dashboard, events: seq<Event>, id: string)
    requires d.manifest.Listing? && Gone(d, id)
    ensures AfterAll(d, events).manifest.Listing? && Gone(AfterAll(d, events), id)
  {
    if events != [] {
      var before, e := AfterAll(d, events[..|events| - 1]), events[|events| - 1];
      DeletedStaysDeleted(d, events[..|events| - 1], id);
      match e
      case Seeding(t) => TombstonedListing(before, t, id);
      case Deletion(other) => if Deletes(before, other) { DeletingTakesOne(before, other, id); }
    }
  }

  /** Off the list, and either the file survives or the page was deleted. */
  predicate Off(d: Dashboard, id: string) {
    d.manifest.Listing? && !Listed(d, id) && (id + HTML in d.pages || id in d.tombstones)
  }

  /** A row removed while its file survives is never listed again, nor is a deleted page's, over
      any interleaving of seedings and deletions. */
  lemma {:induction false} NeverResurrected(d: Dashboard, events: seq<Event>, id: string)
    requires Off(d, id)
    ensures Off(AfterAll(d, events), id)
  {
    if events != [] {
      var before, e := AfterAll(d, events[..|events| - 1]), events[|events| - 1];
      NeverResurrected(d, events[..|events| - 1], id);
      match e
      case Seeding(t) =>
        IdOfPage(id);
        SeedingKeeps(before, t, id + HTML, id);
      case Deletion(other) =>
        if Deletes(before, other) {
          DeletingTakesOne(before, other, id);
          OtherPage(id, other);
        }
    }
  }

  lemma OtherPage(id: string, other: string)
    ensures id + HTML == other + HTML <==> id == other
  {
    IdOfPage(id);
    IdOfPage(other);
  }

  /** The rows whose page is not among those named. */
  function Without(rows: seq<Row>, ids: set<string>): seq<Row> {
    if rows == [] then [] else (if rows[0].id in ids then [] else [rows[0]]) + Without(rows[1..], ids)
  }

  lemma {:induction false} WithoutOneMore(rows: seq<Row>, ids: set<string>, id: string)
    ensures Unlisted(Without(rows, ids), id) == Without(rows, ids + {id})
  {
    if rows != [] {
      WithoutOneMore(rows[1..], ids, id);
      UnlistedConcat(if rows[0].id in ids then [] else [rows[0]], Without(rows[1..], ids), id);
    }
  }

  lemma {:induction false} UnlistedConcat(a: seq<Row>, b: seq<Row>, id: string)
    ensures Unlisted(a + b, id) == Unlisted(a, id) + Unlisted(b, id)
  {
    if a == [] {
      assert a + b == b;
    } else {
      UnlistedConcat(a[1..], b, id);
      assert (a + b)[1..] == a[1..] + b;
      Associative(if a[0].id == id then [] else [a[0]], Unlisted(a[1..], id), Unlisted(b, id));
    }
  }

  lemma {:induction false} UnlistedPrefix(a: seq<Row>, b: seq<Row>, id: string)
    requires a <= b
    ensures Unlisted(a, id) <= Unlisted(b, id)
  {
    assert b == a + b[|a|..];
    UnlistedConcat(a, b[|a|..], id);
  }

  lemma {:induction false} NothingUnlisted(rows: seq<Row>, id: string)
    requires id !in Ids(rows)
    ensures Unlisted(rows, id) == rows
  {
    if rows != [] {
      assert rows == [rows[0]] + rows[1..];
      IdsOfConcat([rows[0]], rows[1..], id);
      assert [rows[0]][0].id in Ids([rows[0]]);
      NothingUnlisted(rows[1..], id);
    }
  }

  /** The pages a run of events asks to delete, as far as an id can be one. */
  function DeletedIds(events: seq<Event>): set<string> {
    set k | 0 <= k < |events| && events[k].Deletion? && Slug(events[k].id) :: events[k].id
  }

  lemma DeletedOneMore(events: seq<Event>)
    requires events != []
    ensures var e := events[|events| - 1];
      DeletedIds(events) == DeletedIds(events[..|events| - 1]) + if e.Deletion? && Slug(e.id) then {e.id} else {}
  {
    var n := |events| - 1;
    forall id
      ensures id in DeletedIds(events)
        <==> id in DeletedIds(events[..n]) || (events[n].Deletion? && Slug(events[n].id) && id == events[n].id)
    {
      if id in DeletedIds(events[..n]) {
        var k :| 0 <= k < n && events[..n][k].Deletion? && Slug(events[..n][k].id) && events[..n][k].id == id;
        assert events[k].id == id;
      }
      if id in DeletedIds(events) {
        var k :| 0 <= k <= n && events[k].Deletion? && Slug(events[k].id) && events[k].id == id;
        assert k < n ==> events[..n][k] == events[k];
      }
    }
  }

  /** Over any interleaving the member's rows, less those of deleted pages, stay first and in
      order. */
  lemma {:induction false} RowsStayFirst(d: Dashboard, events: seq<Event>)
    requires d.manifest.Listing?
    ensures AfterAll(d, events).manifest.Listing?
    ensures Without(d.manifest.rows, DeletedIds(events)) <= AfterAll(d, events).manifest.rows
  {
    if events == [] {
      assert DeletedIds(events) == {};
      WithoutNothing(d.manifest.rows);
    } else {
      var n := |events| - 1;
      RowsStayFirst(d, events[..n]);
      DeletedOneMore(events);
      var before, rows := AfterAll(d, events[..n]), Without(d.manifest.rows, DeletedIds(events[..n]));
      match events[n]
      case Seeding(t) =>
        SeedingKeeps(before, t, "", "");
        assert DeletedIds(events) == DeletedIds(events[..n]);
      case Deletion(id) => RowsAfterDeletion(before, rows, d.manifest.rows, DeletedIds(events[..n]), id);
    }
  }

  lemma {:induction false} WithoutNothing(rows: seq<Row>)
    ensures Without(rows, {}) == rows
  {
    if rows != [] {
      WithoutNothing(rows[1..]);
    }
  }

  lemma RowsAfterDeletion(d: Dashboard, rows: seq<Row>, first: seq<Row>, ids: set<string>, id: string)
    requires d.manifest.Listing? && rows == Without(first, ids) && rows <= d.manifest.rows
    ensures Deleted(d, id).manifest.Listing?
    ensures Without(first, ids + if Slug(id) then {id} else {}) <= Deleted(d, id).manifest.rows
  {
    if Slug(id) {
      WithoutOneMore(first, ids, id);
      if Listed(d, id) {
        UnlistedPrefix(rows, d.manifest.rows, id);
      } else {
        assert d.manifest.rows == rows + d.manifest.rows[|rows|..];
        IdsOfConcat(rows, d.manifest.rows[|rows|..], id);
        NothingUnlisted(rows, id);
      }
    } else {
      assert ids + {} == ids;
    }
  }

  /** A page's bytes are the member's: no event but its own deletion changes or removes it. */
  lemma {:induction false} PagesAreTheMembers(d: Dashboard, events: seq<Event>, f: string)
    requires f in d.pages && forall k :: 0 <= k < |events| ==> !(events[k].Deletion? && events[k].id + HTML == f)
    ensures f in AfterAll(d, events).pages && AfterAll(d, events).pages[f] == d.pages[f]
  {
    if events != [] {
      var before, e := AfterAll(d, events[..|events| - 1]), events[|events| - 1];
      PagesAreTheMembers(d, events[..|events| - 1], f);
      match e
      case Seeding(t) => SeedingKeeps(before, t, f, "");
      case Deletion(other) => if Deletes(before, other) { DeletingTakesOne(before, other, other); }
    }
  }

  /** Without the manifest the promise fails: a deleted page is listed again. */
  lemma MissingManifestRelists(d: Dashboard, t: Template, id: string)
    requires d.manifest.Missing? && Gone(d, id) && id in Ids(t.rows)
    ensures Listed(Seeded(d, t), id) && id + HTML !in Seeded(d, t).pages
  {
    TombstonedListing(d, t, id);
  }

  // ---------------------------------------------------------------- the scripts

  class Box {
    var dash: Dashboard

    constructor (d: Dashboard)
      ensures dash == d
    {
      dash := d;
    }

    /** The loop over the template's page files. */
    method SeedPageFiles(t: Template) returns (newPageFiles: set<string>)
      modifies this
      ensures newPageFiles == NewFiles(old(dash), t)
      ensures dash == old(dash).(pages := old(dash).pages + PagesFrom(t, newPageFiles))
    {
      ghost var d := dash;
      newPageFiles := {};
      var todo := t.pages.Keys;
      ghost var done: set<string> := {};
      var pages := dash.pages;
      while todo != {}
        invariant todo + done == t.pages.Keys && todo !! done
        invariant newPageFiles == NewFiles(d, t) * done && dash == d
        invariant pages == d.pages + PagesFrom(t, newPageFiles)
      {
        var f :| f in todo;
        todo, done := todo - {f}, done + {f};
        if IdOf(f) !in dash.tombstones && f !in pages {
          pages := pages[f := t.pages[f]];
          newPageFiles := newPageFiles + {f};
        }
      }
      dash := dash.(pages := pages);
    }

    /** seed-pages. */
    method Seed(t: Template) returns (created: nat)
      modifies this
      ensures dash == Seeded(old(dash), t) && created == Created(old(dash), t)
    {
      created := 0;
      ghost var d := dash;
      if dash.manifest.Missing? {
        dash := dash.(manifest := Listing(AllSeed(t.rows)));
        created := created + 1;
      }
      if dash.cards.None? {
        dash := dash.(cards := Some(t.cards));
        created := created + 1;
      }
      var newPageFiles := SeedPageFiles(t);
      assert newPageFiles == NewFiles(d, t);
      created := created + |newPageFiles|;
      NothingToAdd(t.rows, if dash.manifest.Listing? then Ids(dash.manifest.rows) else {});
      NoneOfOurs(t.rows, newPageFiles);
      if newPageFiles != {} && dash.manifest.Listing? {
        var mine := MergeRows(dash.manifest.rows, t.rows, newPageFiles);
        dash := dash.(manifest := Listing(mine));
      }
      dash := dash.(version := t.version);
      if dash.ownership.None? {
        dash := dash.(ownership := Some(t.ownership));
        created := created + 1;
      }
      assert dash.manifest == SeededManifest(d, t);
    }

    /** page-delete. */
    method Delete(id: string) returns (ok: bool)
      modifies this
      ensures dash == Deleted(old(dash), id) && ok == Deletes(old(dash), id)
    {
      if !Slug(id) {
        return false;
      }
      var rows := if dash.manifest.Listing? then dash.manifest.rows else [];
      var inManifest := exists i | 0 <= i < |rows| :: rows[i].id == id;
      var onDisk := id + HTML in dash.pages;
      assert inManifest <==> Listed(dash, id);
      if !inManifest && !onDisk {
        return false;
      }
      ghost var d := dash;
      if onDisk {
        dash := dash.(pages := dash.pages - {id + HTML});
      }
      if inManifest {
        var left := Filtered(rows, id);
        dash := dash.(manifest := Listing(left));
      }
      if id !in dash.tombstones {
        dash := dash.(tombstones := dash.tombstones + [id]);
      }
      assert onDisk || d.pages - {id + HTML} == d.pages;
      ok := true;
    }
  }

  /** The loop that adds template rows to the member's. */
  method MergeRows(rows: seq<Row>, ours: seq<Row>, files: set<string>) returns (mine: seq<Row>)
    ensures mine == rows + Additions(ours, Ids(rows), files)
  {
    mine := rows;
    var have := Ids(rows);
    for i := 0 to |ours|
      invariant mine + Additions(ours[i..], have, files) == rows + Additions(ours, have, files)
    {
      var p := ours[i];
      assert ours[i..][1..] == ours[i + 1..];
      if p.id != "" && p.id !in have && p.id + HTML in files {
        Associative(mine, [p.(seed := true)], Additions(ours[i + 1..], have, files));
        mine := mine + [p.(seed := true)];
      }
    }
  }

  method Filtered(rows: seq<Row>, id: string) returns (left: seq<Row>)
    ensures left == Unlisted(rows, id)
  {
    left := [];
    for i := 0 to |rows|
      invariant left == Unlisted(rows[..i], id)
    {
      assert rows[..i + 1] == rows[..i] + [rows[i]];
      UnlistedConcat(rows[..i], [rows[i]], id);
      if rows[i].id != id {
        left := left + [rows[i]];
      }
    }
    assert rows[..|rows|] == rows;
  }

  /** A manifest made from the template already lists all the template has. */
  lemma NoneOfOurs(rows: seq<Row>, files: set<string>)
    ensures AllSeed(rows) + Additions(rows, Ids(AllSeed(rows)), files) == AllSeed(rows)
  {
    forall i | 0 <= i < |rows|
      ensures rows[i].id in Ids(AllSeed(rows))
    {
      assert AllSeed(rows)[i].id == rows[i].id;
    }
    AllHad(rows, Ids(AllSeed(rows)), files);
  }

  lemma {:induction false} AllHad(rows: seq<Row>, have: set<string>, files: set<string>)
    requires forall i :: 0 <= i < |rows| ==> rows[i].id in have
    ensures Additions(rows, have, files) == []
  {
    if rows != [] {
      AllHad(rows[1..], have, files);
    }
  }
}
