/** The marker-guarded block in CLAUDE.md. */
module BrainClaudeMd {
  import opened Bytes
  import opened Text

  const MARK_START := "<!-- crads-ai:brain-layers start"
  const MARK_END := "<!-- crads-ai:brain-layers end -->"

  datatype Upserted = Upserted(text: string, malformed: bool)

  /** upsertBrainSection: replace the one block, or append one; leave anything else alone. */
  function Upsert(text: string, section: string): Upserted {
    var starts, ends := Count(text, MARK_START, 0), Count(text, MARK_END, 0);
    if starts == 0 && ends == 0 then
      var kept := TrimEnd(text);
      Upserted((if kept != "" then kept + "\n\n" else "") + section + "\n", false)
    else if starts != 1 || ends != 1 then Upserted(text, true)
    else
      var a, b := IndexOf(text, MARK_START, 0).Extract(), IndexOf(text, MARK_END, 0).Extract();
      if b < a then Upserted(text, true)
      else Upserted(text[..a] + section + text[b + |MARK_END|..], false)
  }

  // ---------------------------------------------------------------- markers and their borders

  predicate IsMarker(m: string) {
    m == MARK_START || m == MARK_END
  }

  /** A marker opens with its only '<', closes with its only '>' if it has one, is one line. */
  lemma MarkerChars(m: string)
    requires IsMarker(m)
    ensures |m| > 1 && m[0] == '<'
    ensures forall k :: 0 < k < |m| ==> m[k] != '<'
    ensures forall k :: 0 <= k < |m| - 1 ==> m[k] != '>'
    ensures forall k :: 0 <= k < |m| ==> m[k] != '\n'
  {
  }

  /** sub occurs in s at k and nowhere else. */
  ghost predicate Sole(s: string, sub: string, k: nat) {
    At(s, sub, k) && forall i: nat :: At(s, sub, i) ==> i == k
  }

  ghost predicate Absent(s: string, sub: string) {
    forall i: nat :: !At(s, sub, i)
  }

  /** Where the characters around an occurrence pin it down. */
  lemma MarkerPins(s: string, m: string, i: nat, p: nat)
    requires IsMarker(m) && At(s, m, i) && i <= p < i + |m|
    ensures s[p] == '<' <==> p == i
    ensures s[p] == '>' ==> p == i + |m| - 1
    ensures s[p] != '\n'
  {
    MarkerChars(m);
    AtEach(s, m, i);
    assert s[i + (p - i)] == m[p - i];
  }

  lemma MarkersApart(s: string, m: string, i: nat, j: nat)
    requires IsMarker(m) && At(s, m, i) && At(s, m, j) && i < j
    ensures i + |m| <= j
  {
    MarkerChars(m);
    MarkerPins(s, m, j, j);
    if j < i + |m| {
      MarkerPins(s, m, i, j);
    }
  }

  lemma CountsOne(s: string, m: string, k: nat)
    requires IsMarker(m) && Sole(s, m, k)
    ensures Count(s, m, 0) == 1 && IndexOf(s, m, 0) == Some(k)
  {
    IndexOfIs(s, m, 0, k);
    NoneCounted(s, m, k + |m|);
  }

  lemma CountedOnce(s: string, m: string)
    requires IsMarker(m) && Count(s, m, 0) == 1
    ensures IndexOf(s, m, 0).Some? && Sole(s, m, IndexOf(s, m, 0).value)
  {
    var k := IndexOf(s, m, 0).value;
    NoneCounted(s, m, k + |m|);
    forall i: nat | At(s, m, i)
      ensures i == k
    {
      if k < i {
        MarkersApart(s, m, k, i);
      }
    }
  }

  /** A block: it starts with the start marker, ends with the end marker, and holds no other. */
  ghost predicate IsSection(s: string) {
    && |s| >= |MARK_START| + |MARK_END|
    && Sole(s, MARK_START, 0) && Sole(s, MARK_END, |s| - |MARK_END|)
  }

  /** No marker straddles the edge of a block: whatever stands around it, an occurrence lies
      wholly before it, wholly inside, or wholly after. */
  lemma NoStraddle(pre: string, s: string, post: string, m: string, i: nat)
    requires IsMarker(m) && IsSection(s) && At(pre + s + post, m, i)
    ensures || At(pre, m, i)
            || (i >= |pre| && At(s, m, i - |pre|))
            || (i >= |pre| + |s| && At(post, m, i - |pre| - |s|))
  {
    var r := pre + s + post;
    SectionEnds(s);
    EdgesOf(pre, s, post);
    if i < |pre| {
      EndsBefore(r, m, i, |pre|);
      AtInside("", pre, s + post, m, i);
    } else if i < |pre| + |s| {
      EndsWith(r, m, i, |pre| + |s| - 1);
      AtInside(pre, s, post, m, i);
    } else {
      AtInside(pre + s, post, "", m, i);
    }
  }

  lemma EdgesOf(pre: string, s: string, post: string)
    requires s != ""
    ensures var r := pre + s + post;
      && r[|pre|] == s[0] && r[|pre| + |s| - 1] == s[|s| - 1]
      && r == "" + pre + (s + post) == pre + s + post + ""
  {
  }

  lemma AtInside(pre: string, s: string, post: string, m: string, i: nat)
    requires At(pre + s + post, m, i) && |pre| <= i && i + |m| <= |pre| + |s|
    ensures At(s, m, i - |pre|)
  {
    assert s[i - |pre|..i - |pre| + |m|] == (pre + s + post)[i..i + |m|];
  }

  /** A marker ends before the next '<', and no later than the next '>'. */
  lemma EndsBefore(s: string, m: string, i: nat, p: nat)
    requires IsMarker(m) && At(s, m, i) && i < p < |s| && s[p] == '<'
    ensures i + |m| <= p
  {
    if p < i + |m| {
      MarkerPins(s, m, i, p);
    }
  }

  lemma EndsWith(s: string, m: string, i: nat, p: nat)
    requires IsMarker(m) && At(s, m, i) && i <= p < |s| && s[p] == '>'
    ensures i + |m| <= p + 1
  {
    if p < i + |m| {
      MarkerPins(s, m, i, p);
    }
  }

  lemma SectionEnds(s: string)
    requires IsSection(s)
    ensures s[0] == '<' && s[|s| - 1] == '>'
  {
    AtEach(s, MARK_START, 0);
    AtEach(s, MARK_END, |s| - |MARK_END|);
    MarkerChars(MARK_START);
    assert MARK_END[|MARK_END| - 1] == '>';
    assert s[(|s| - |MARK_END|) + (|MARK_END| - 1)] == '>';
  }

  /** A block among marker-free text is the only block, and upsert puts the next one there. */
  lemma UpsertReplaces(pre: string, s1: string, s2: string, post: string)
    requires IsSection(s1)
    requires forall m :: IsMarker(m) ==> Absent(pre, m) && Absent(post, m)
    ensures Upsert(pre + s1 + post, s2) == Upserted(pre + s2 + post, false)
    ensures Sole(pre + s1 + post, MARK_START, |pre|)
    ensures Sole(pre + s1 + post, MARK_END, |pre| + |s1| - |MARK_END|)
  {
    var r := pre + s1 + post;
    BlockAmong(pre, s1, post);
    CountsOne(r, MARK_START, |pre|);
    CountsOne(r, MARK_END, |pre| + |s1| - |MARK_END|);
    assert r[..|pre|] == pre && r[|pre| + |s1|..] == post;
  }

  /** A marker of the block is the only one of its kind in the whole text. */
  lemma SoleInside(pre: string, s: string, post: string, m: string, k: nat)
    requires IsMarker(m) && IsSection(s) && Sole(s, m, k) && Absent(pre, m) && Absent(post, m)
    ensures Sole(pre + s + post, m, |pre| + k)
  {
    var r := pre + s + post;
    assert r[|pre| + k..|pre| + k + |m|] == s[k..k + |m|];
    forall i: nat | At(r, m, i)
      ensures i == |pre| + k
    {
      NoStraddle(pre, s, post, m, i);
    }
  }

  // ---------------------------------------------------------------- any text

  /** Broken or doubled markers: the text is left as it is. */
  predicate Refused(text: string) {
    Upsert(text, "").malformed
  }

  /** What stands before the block, and after it, once upsert has put one there: outside an
      existing block the text byte for byte; appending only trims its end. */
  function Before(text: string): string
    requires !Refused(text)
  {
    if Count(text, MARK_START, 0) == 1 then text[..IndexOf(text, MARK_START, 0).value]
    else if TrimEnd(text) != "" then TrimEnd(text) + "\n\n" else ""
  }

  function Behind(text: string): string
    requires !Refused(text)
  {
    if Count(text, MARK_START, 0) == 1 then text[IndexOf(text, MARK_END, 0).value + |MARK_END|..] else "\n"
  }

  lemma UpsertShape(text: string, section: string)
    ensures Upsert(text, section)
         == if Refused(text) then Upserted(text, true) else Upserted(Before(text) + section + Behind(text), false)
  {
  }

  /** No marker at all, or one start and one end marker, in that order. */
  ghost predicate Intact(text: string) {
    || (Absent(text, MARK_START) && Absent(text, MARK_END))
    || exists a, b :: BlockAt(text, a, b)
  }

  ghost predicate BlockAt(text: string, a: nat, b: nat) {
    a < b && Sole(text, MARK_START, a) && Sole(text, MARK_END, b)
  }

  /** Exactly the texts whose markers are broken, doubled or out of order are refused, and a
      refused text is returned as it is. */
  lemma RefusedIff(text: string, section: string)
    ensures Upsert(text, section).malformed <==> !Intact(text)
    ensures !Intact(text) ==> Upsert(text, section).text == text
  {
    UpsertShape(text, section);
    NoneCounted(text, MARK_START, 0);
    NoneCounted(text, MARK_END, 0);
    if !Refused(text) {
      NotRefused(text);
      if Count(text, MARK_START, 0) == 1 {
        IntactBlock(text);
      }
    }
    if a, b :| BlockAt(text, a, b) {
      CountsOne(text, MARK_START, a);
      CountsOne(text, MARK_END, b);
    }
  }

  lemma IntactBlock(text: string)
    requires !Refused(text) && Count(text, MARK_START, 0) == Count(text, MARK_END, 0) == 1
    ensures BlockAt(text, IndexOf(text, MARK_START, 0).value, IndexOf(text, MARK_END, 0).value)
  {
    CountedOnce(text, MARK_START);
    CountedOnce(text, MARK_END);
    NotRefused(text);
    MarkersDiffer(text, IndexOf(text, MARK_START, 0).value);
  }

  lemma MarkersDiffer(s: string, i: nat)
    ensures !(At(s, MARK_START, i) && At(s, MARK_END, i))
  {
    AtEach(s, MARK_START, i);
    AtEach(s, MARK_END, i);
    assert MARK_START[27] == 's' && MARK_END[27] == 'e';
    assert At(s, MARK_START, i) ==> s[i + 27] == 's';
    assert At(s, MARK_END, i) ==> s[i + 27] == 'e';
  }

  /** Where a block stands, its text outside the markers is kept byte for byte; where none does,
      appending trims the end of the text and nothing else. */
  lemma OutsideIsKept(text: string, section: string, a: nat, b: nat)
    ensures BlockAt(text, a, b) ==> Upsert(text, section).text == text[..a] + section + text[b + |MARK_END|..]
    ensures Absent(text, MARK_START) && Absent(text, MARK_END) ==>
      Upsert(text, section).text
        == (if TrimEnd(text) != "" then TrimEnd(text) + "\n\n" else "") + section + "\n"
  {
    NoneCounted(text, MARK_START, 0);
    NoneCounted(text, MARK_END, 0);
    if BlockAt(text, a, b) {
      CountsOne(text, MARK_START, a);
      CountsOne(text, MARK_END, b);
    }
  }

  /** A text that is not refused holds no marker, or one block in order. */
  lemma NotRefused(text: string)
    requires !Refused(text)
    ensures Count(text, MARK_START, 0) == Count(text, MARK_END, 0) == 0
         || (Count(text, MARK_START, 0) == Count(text, MARK_END, 0) == 1
             && IndexOf(text, MARK_START, 0).value <= IndexOf(text, MARK_END, 0).value)
  {
  }

  /** Neither what stands before the block nor what stands behind it holds a marker. */
  lemma SurroundingsHoldNoMarker(text: string, m: string)
    requires !Refused(text) && IsMarker(m)
    ensures Absent(Before(text), m) && Absent(Behind(text), m)
  {
    NotRefused(text);
    if Count(text, MARK_START, 0) == 1 {
      AroundABlock(text, m);
    } else {
      AroundTheEnd(text, m);
    }
  }

  lemma AroundABlock(text: string, m: string)
    requires !Refused(text) && IsMarker(m) && Count(text, MARK_START, 0) == Count(text, MARK_END, 0) == 1
    ensures Absent(Before(text), m) && Absent(Behind(text), m)
  {
    var a, b := BlockEdges(text);
    CutHoldsNoMarker(text, a, b, m);
  }

  lemma BlockEdges(text: string) returns (a: nat, b: nat)
    requires !Refused(text) && Count(text, MARK_START, 0) == Count(text, MARK_END, 0) == 1
    ensures BlockAt(text, a, b) && b + |MARK_END| <= |text|
    ensures Before(text) == text[..a] && Behind(text) == text[b + |MARK_END|..]
  {
    IntactBlock(text);
    a, b := IndexOf(text, MARK_START, 0).value, IndexOf(text, MARK_END, 0).value;
  }

  lemma AroundTheEnd(text: string, m: string)
    requires !Refused(text) && IsMarker(m) && Count(text, MARK_START, 0) == Count(text, MARK_END, 0) == 0
    ensures Absent(Before(text), m) && Absent(Behind(text), m)
  {
    NoneCounted(text, m, 0);
    AppendHoldsNoMarker(text, m);
  }

  lemma CutHoldsNoMarker(text: string, a: nat, b: nat, m: string)
    requires BlockAt(text, a, b) && IsMarker(m)
    ensures Absent(text[..a], m) && Absent(text[b + |MARK_END|..], m)
  {
    forall i: nat | At(text[..a], m, i)
      ensures At(text, m, i)
    {
      assert text[..a][i..i + |m|] == text[i..i + |m|];
    }
    var tail := text[b + |MARK_END|..];
    forall i: nat | At(tail, m, i)
      ensures At(text, m, i + (|text| - |tail|))
    {
      var j := i + (|text| - |tail|);
      assert tail[i..i + |m|] == text[j..j + |m|];
    }
  }

  lemma AppendHoldsNoMarker(text: string, m: string)
    requires IsMarker(m) && Absent(text, m)
    ensures Absent(TrimEnd(text) + "\n\n", m) && Absent("", m) && Absent("\n", m)
  {
    var kept := TrimEnd(text);
    TrimEndPrefix(text);
    MarkerChars(m);
    forall i: nat | At(kept + "\n\n", m, i)
      ensures At(text, m, i)
    {
      if |kept| < i + |m| {
        MarkerPins(kept + "\n\n", m, i, i + |m| - 1);
      }
      assert text[i..i + |m|] == (kept + "\n\n")[i..i + |m|];
    }
  }

  /** Upserting absorbs earlier upserts: for every text, writing s1 and then s2 is writing s2. */
  lemma UpsertAbsorbs(text: string, s1: string, s2: string)
    requires IsSection(s1)
    ensures Upsert(Upsert(text, s1).text, s2) == Upsert(text, s2)
  {
    UpsertShape(text, s1);
    UpsertShape(text, s2);
    if !Refused(text) {
      UpsertOnce(text, s1);
      UpsertReplaces(Before(text), s1, s2, Behind(text));
    }
  }

  /** What upsert wrote holds exactly one start and one end marker, the block between them, and
      around it what stood around it. */
  lemma UpsertOnce(text: string, section: string)
    requires IsSection(section) && !Refused(text)
    ensures forall m :: IsMarker(m) ==> Absent(Before(text), m) && Absent(Behind(text), m)
    ensures var out := Upsert(text, section).text;
      && out == Before(text) + section + Behind(text)
      && Sole(out, MARK_START, |Before(text)|)
      && Sole(out, MARK_END, |Before(text)| + |section| - |MARK_END|)
  {
    UpsertShape(text, section);
    CleanAround(text);
    BlockAmong(Before(text), section, Behind(text));
  }

  lemma CleanAround(text: string)
    requires !Refused(text)
    ensures forall m :: IsMarker(m) ==> Absent(Before(text), m) && Absent(Behind(text), m)
  {
    forall m | IsMarker(m)
      ensures Absent(Before(text), m) && Absent(Behind(text), m)
    {
      SurroundingsHoldNoMarker(text, m);
    }
  }

  /** Among marker-free text a block's markers are the only ones. */
  lemma BlockAmong(pre: string, s: string, post: string)
    requires IsSection(s) && forall m :: IsMarker(m) ==> Absent(pre, m) && Absent(post, m)
    ensures Sole(pre + s + post, MARK_START, |pre|)
    ensures Sole(pre + s + post, MARK_END, |pre| + |s| - |MARK_END|)
  {
    SoleInside(pre, s, post, MARK_START, 0);
    SoleInside(pre, s, post, MARK_END, |s| - |MARK_END|);
  }

  // ---------------------------------------------------------------- the block itself

  /** The rest of the start line, after the part that is matched. */
  const NOTE_1 := " (your mineral keeps this block current"
  const NOTE_2 := " each time it starts; write your own"
  const NOTE_3 := " notes above or below it, never inside) -->"
  const NOTE := NOTE_1 + NOTE_2 + NOTE_3

  /** One piece of the block's prose: fixed words, the brain root's prefix, the STATE.md path. */
  datatype Piece = Words(words: string) | Prefix | StateMd

  function Fill(piece: Piece, p: string, sm: string): string {
    match piece
    case Words(w) => w
    case Prefix => p
    case StateMd => sm
  }

  function Prose(pieces: seq<Piece>, p: string, sm: string): string {
    if pieces == [] then "" else Fill(pieces[0], p, sm) + Prose(pieces[1..], p, sm)
  }

  function Middle(prose: seq<Piece>, p: string, sm: string): string {
    NOTE + "\n" + Prose(prose, p, sm) + "\n"
  }

  /** buildBrainSection, over the fixed prose of the block. */
  function BuildSection(prose: seq<Piece>, prefix: string, stateMd: string): string {
    var p := if prefix != "" then TrimSlashes(prefix) + "/" else "";
    var sm := if stateMd != "" then stateMd else p + "STATE.md";
    MARK_START + Middle(prose, p, sm) + MARK_END
  }

  /** The block as it reads: its first line, the prose piece by piece, its last line. The prefix is
      the brain root's name and one slash; STATE.md lies right under it unless another path is given. */
  lemma BlockReads(prose: seq<Piece>, root: string, slashes: string, stateMd: string)
    requires (root == "" || root[|root| - 1] != '/') && forall i :: 0 <= i < |slashes| ==> slashes[i] == '/'
    ensures var p := if root + slashes == "" then "" else root + "/";
      BuildSection(prose, root + slashes, stateMd)
      == "<!-- crads-ai:brain-layers start" + NOTE + "\n"
         + Prose(prose, p, if stateMd == "" then p + "STATE.md" else stateMd)
         + "\n" + "<!-- crads-ai:brain-layers end -->"
  {
    TrimSlashesIs(root, slashes);
    var p := if root + slashes == "" then "" else root + "/";
    var text := Prose(prose, p, if stateMd == "" then p + "STATE.md" else stateMd);
    BlockPieces(NOTE, text);
  }

  lemma BlockPieces(note: string, text: string)
    ensures MARK_START + (note + "\n" + text + "\n") + MARK_END == MARK_START + note + "\n" + text + "\n" + MARK_END
  {
  }

  lemma NoteReads()
    ensures NOTE == " (your mineral keeps this block current" + " each time it starts; write your own"
      + " notes above or below it, never inside) -->"
  {
  }

  lemma {:induction false} ProseConcat(a: seq<Piece>, b: seq<Piece>, p: string, sm: string)
    ensures Prose(a + b, p, sm) == Prose(a, p, sm) + Prose(b, p, sm)
    ensures Prose([Prefix], p, sm) == p && Prose([StateMd], p, sm) == sm
    ensures forall w :: Prose([Words(w)], p, sm) == w
  {
    if a == [] {
      assert a + b == b;
    } else {
      ProseConcat(a[1..], b, p, sm);
      assert (a + b)[1..] == a[1..] + b;
      Associative(Fill(a[0], p, sm), Prose(a[1..], p, sm), Prose(b, p, sm));
    }
  }

  /** Every '<' has a '/' somewhere after it: no marker that starts in such a text leaves it. */
  ghost predicate Solid(s: string) {
    forall i :: 0 <= i < |s| && s[i] == '<' ==> exists j :: i < j < |s| && s[j] == '/'
  }

  lemma MarkersHaveNoSlash(m: string)
    requires IsMarker(m)
    ensures '/' !in m
  {
    assert forall k :: 0 <= k < |MARK_START| ==> MARK_START[k] != '/';
    assert forall k :: 0 <= k < |MARK_END| ==> MARK_END[k] != '/';
  }

  lemma InSlice(s: string, i: nat, n: nat, j: nat)
    requires i <= j < |s| && i + n <= |s|
    ensures j < i + n ==> s[j] in s[i..i + n]
  {
    if j < i + n {
      assert s[i..i + n][j - i] == s[j];
    }
  }

  /** Behind a solid text no marker straddles, so a marker is in one of the two or in neither. */
  lemma NoneAcross(a: string, b: string, m: string)
    requires IsMarker(m) && Solid(a)
    ensures Absent(a + b, m) <==> Absent(a, m) && Absent(b, m)
  {
    if Absent(a, m) && Absent(b, m) {
      forall i: nat
        ensures !At(a + b, m, i)
      {
        AcrossAt(a, b, m, i);
      }
    }
    if Absent(a + b, m) {
      forall i: nat
        ensures !At(a, m, i) && !At(b, m, i)
      {
        AcrossAt(a, b, m, i);
        BehindAt(a, b, m, i);
      }
    }
  }

  lemma BehindAt(a: string, b: string, m: string, i: nat)
    ensures At(b, m, i) ==> At(a + b, m, i + |a|)
  {
    if At(b, m, i) {
      assert (a + b)[i + |a|..i + |a| + |m|] == b[i..i + |m|];
    }
  }

  lemma AcrossAt(a: string, b: string, m: string, i: nat)
    requires IsMarker(m) && Solid(a)
    ensures At(a + b, m, i) ==> At(a, m, i) || (i >= |a| && At(b, m, i - |a|))
    ensures At(a, m, i) ==> At(a + b, m, i)
  {
    var s := a + b;
    if At(a, m, i) {
      assert s[i..i + |m|] == a[i..i + |m|];
    }
    if At(s, m, i) && i < |a| {
      StaysBefore(a, b, m, i);
      assert s[i..i + |m|] == a[i..i + |m|];
    }
    if At(s, m, i) && i >= |a| {
      assert b[i - |a|..i - |a| + |m|] == s[i..i + |m|];
    }
  }

  /** A marker that opens in a solid text ends in it. */
  lemma StaysBefore(a: string, b: string, m: string, i: nat)
    requires IsMarker(m) && Solid(a) && At(a + b, m, i) && i < |a|
    ensures i + |m| <= |a|
  {
    var s := a + b;
    MarkerPins(s, m, i, i);
    assert a[i] == s[i] == '<';
    var j :| i < j < |a| && a[j] == '/';
    assert s[j] == '/';
    InSlice(s, i, |m|, j);
    MarkersHaveNoSlash(m);
  }

  lemma SolidConcat(a: string, b: string)
    requires Solid(a) && Solid(b)
    ensures Solid(a + b)
  {
    forall i | 0 <= i < |a + b| && (a + b)[i] == '<'
      ensures exists j :: i < j < |a + b| && (a + b)[j] == '/'
    {
      if i < |a| {
        var j :| i < j < |a| && a[j] == '/';
        assert (a + b)[j] == '/';
      } else {
        var j :| i - |a| < j < |b| && b[j] == '/';
        assert (a + b)[j + |a|] == '/';
      }
    }
  }

  lemma MarkerHasOpener(s: string, m: string, i: nat)
    requires IsMarker(m)
    ensures At(s, m, i) ==> '<' in s
  {
    MarkerChars(m);
    if At(s, m, i) {
      MarkerPins(s, m, i, i);
      assert s[i] in s;
    }
  }

  lemma NoOpenerNoMarker(s: string, m: string)
    requires IsMarker(m) && '<' !in s
    ensures Absent(s, m) && Solid(s)
  {
    forall i: nat
      ensures !At(s, m, i)
    {
      MarkerHasOpener(s, m, i);
    }
  }

  lemma SlashAtEnd(root: string)
    ensures Solid(root + "/")
  {
    var p := root + "/";
    assert p[|p| - 1] == '/';
  }

  /** The brain root with its slash: solid, and as free of markers as the root itself. */
  lemma RootIsSolid(root: string, m: string)
    requires IsMarker(m)
    ensures Solid(root + "/")
    ensures Absent(root + "/", m) <==> Absent(root, m)
  {
    var p := root + "/";
    SlashAtEnd(root);
    MarkersHaveNoSlash(m);
    forall i: nat
      ensures At(p, m, i) <==> At(root, m, i)
    {
      if i + |m| <= |p| {
        MarkerChars(m);
        InSlice(p, i, |m|, |p| - 1);
      }
      if i + |m| <= |root| {
        assert p[i..i + |m|] == root[i..i + |m|];
      }
    }
  }

  /** What fills the block: p, the brain root's prefix, and sm, which begins with it or is fixed. */
  lemma FillIsSolid(piece: Piece, p: string, sm: string, m: string)
    requires IsMarker(m) && Solid(p) && Solid(sm) && (Absent(p, m) ==> Absent(sm, m))
    requires piece.Words? ==> '<' !in piece.words
    ensures Solid(Fill(piece, p, sm))
    ensures Absent(p, m) ==> Absent(Fill(piece, p, sm), m)
  {
    if piece.Words? {
      NoOpenerNoMarker(piece.words, m);
    }
  }

  /** The prose holds a marker exactly when the prefix that is put into it does. */
  lemma {:induction false} ProseMarkers(prose: seq<Piece>, p: string, sm: string, m: string)
    requires IsMarker(m) && Solid(p) && Solid(sm) && (Absent(p, m) ==> Absent(sm, m))
    requires forall i :: 0 <= i < |prose| && prose[i].Words? ==> '<' !in prose[i].words
    ensures Solid(Prose(prose, p, sm))
    ensures Absent(p, m) ==> Absent(Prose(prose, p, sm), m)
    ensures Prefix in prose && Absent(Prose(prose, p, sm), m) ==> Absent(p, m)
  {
    if prose == [] {
      NoOpenerNoMarker("", m);
    } else {
      var rest := Prose(prose[1..], p, sm);
      ProseMarkers(prose[1..], p, sm, m);
      FillIsSolid(prose[0], p, sm, m);
      SolidConcat(Fill(prose[0], p, sm), rest);
      NoneAcross(Fill(prose[0], p, sm), rest, m);
      assert prose == [prose[0]] + prose[1..];
    }
  }

  lemma NoteOpensNothing()
    ensures '<' !in NOTE
  {
    assert forall k :: 0 <= k < |NOTE_1| ==> NOTE_1[k] != '<';
    assert forall k :: 0 <= k < |NOTE_2| ==> NOTE_2[k] != '<';
    assert forall k :: 0 <= k < |NOTE_3| ==> NOTE_3[k] != '<';
  }

  lemma MiddleMarkers(prose: seq<Piece>, p: string, sm: string, m: string)
    requires IsMarker(m) && Solid(p) && Solid(sm) && (Absent(p, m) ==> Absent(sm, m))
    requires forall i :: 0 <= i < |prose| && prose[i].Words? ==> '<' !in prose[i].words
    ensures Solid(Middle(prose, p, sm))
    ensures Absent(p, m) ==> Absent(Middle(prose, p, sm), m)
    ensures Prefix in prose && Absent(Middle(prose, p, sm), m) ==> Absent(p, m)
  {
    var note, text := NOTE + "\n", Prose(prose, p, sm);
    NoteOpensNothing();
    NoOpenerNoMarker(note, m);
    NoOpenerNoMarker("\n", m);
    ProseMarkers(prose, p, sm, m);
    SolidConcat(note, text);
    SolidConcat(note + text, "\n");
    NoneAcross(note, text, m);
    NoneAcross(note + text, "\n", m);
  }

  /** What stands between the markers makes a block exactly when it holds no marker. */
  lemma Enclosed(middle: string)
    requires Solid(middle)
    ensures IsSection(MARK_START + middle + MARK_END) <==> forall m :: IsMarker(m) ==> Absent(middle, m)
  {
    var s := MARK_START + middle + MARK_END;
    var e := |s| - |MARK_END|;
    assert s[0..|MARK_START|] == MARK_START && s[e..e + |MARK_END|] == MARK_END;
    if forall m :: IsMarker(m) ==> Absent(middle, m) {
      forall m, i: nat | IsMarker(m) && At(s, m, i)
        ensures if m == MARK_START then i == 0 else i == e
      {
        OpensAt(middle, m, i);
      }
    }
    forall m | IsMarker(m) && IsSection(s)
      ensures Absent(middle, m)
    {
      SectionIsClean(middle, m);
    }
  }

  lemma SectionIsClean(middle: string, m: string)
    requires IsMarker(m) && IsSection(MARK_START + middle + MARK_END)
    ensures Absent(middle, m)
  {
    MarkerChars(m);
    forall i: nat
      ensures !At(middle, m, i)
    {
      InnerAt(middle, m, i);
    }
  }

  lemma InnerAt(middle: string, m: string, i: nat)
    ensures At(middle, m, i) ==> At(MARK_START + middle + MARK_END, m, i + |MARK_START|)
  {
    if At(middle, m, i) {
      var k := i + |MARK_START|;
      assert (MARK_START + middle + MARK_END)[k..k + |m|] == middle[i..i + |m|];
    }
  }

  /** Where a marker can open in a block: at either end, or inside what stands between. */
  lemma OpensAt(middle: string, m: string, i: nat)
    requires Solid(middle) && IsMarker(m) && Absent(middle, m) && At(MARK_START + middle + MARK_END, m, i)
    ensures if m == MARK_START then i == 0 else i == |MARK_START| + |middle|
  {
    var s := MARK_START + middle + MARK_END;
    var e := |MARK_START| + |middle|;
    MarkerChars(MARK_START);
    MarkerChars(MARK_END);
    MarkerPins(s, m, i, i);
    assert i < |MARK_START| ==> s[i] == MARK_START[i];
    assert e <= i ==> s[i] == MARK_END[i - e];
    if |MARK_START| <= i {
      TailAt(middle, m, i);
      AcrossAt(middle, MARK_END, m, i - |MARK_START|);
    }
    assert i == 0 || i == e;
    MarkerEnds(middle, m, i);
  }

  lemma TailAt(middle: string, m: string, i: nat)
    requires |MARK_START| <= i && At(MARK_START + middle + MARK_END, m, i)
    ensures At(middle + MARK_END, m, i - |MARK_START|)
  {
    var k := i - |MARK_START|;
    assert (middle + MARK_END)[k..k + |m|] == (MARK_START + middle + MARK_END)[i..i + |m|];
  }

  lemma MarkerEnds(middle: string, m: string, i: nat)
    requires IsMarker(m) && At(MARK_START + middle + MARK_END, m, i)
    requires i == 0 || i == |MARK_START| + |middle|
    ensures m == MARK_START <==> i == 0
  {
    var s := MARK_START + middle + MARK_END;
    var e := |MARK_START| + |middle|;
    AtEach(s, m, i);
    assert MARK_START[27] == 's' && MARK_END[27] == 'e';
    assert s[0 + 27] == MARK_START[27] && s[e + 27] == MARK_END[27];
    assert s[i + 27] == m[27];
  }

  /** The block that is built is well-formed exactly when the brain root's own name holds no
      marker. */
  lemma BuildsASection(prose: seq<Piece>, prefix: string, stateMd: string)
    requires forall i :: 0 <= i < |prose| && prose[i].Words? ==> '<' !in prose[i].words
    requires '<' !in stateMd && Prefix in prose
    ensures IsSection(BuildSection(prose, prefix, stateMd))
       <==> forall m :: IsMarker(m) ==> Absent(TrimSlashes(prefix), m)
  {
    var p := if prefix != "" then TrimSlashes(prefix) + "/" else "";
    var sm := if stateMd != "" then stateMd else p + "STATE.md";
    forall m | IsMarker(m)
      ensures Solid(Middle(prose, p, sm))
      ensures Absent(Middle(prose, p, sm), m) <==> Absent(TrimSlashes(prefix), m)
    {
      FillersAreSolid(prefix, stateMd, m);
      MiddleMarkers(prose, p, sm, m);
    }
    assert IsMarker(MARK_START);
    Enclosed(Middle(prose, p, sm));
  }

  /** It happens: the block of a root that is named like a marker is not well-formed. */
  lemma MarkedRoot(prose: seq<Piece>, stateMd: string)
    requires forall i :: 0 <= i < |prose| && prose[i].Words? ==> '<' !in prose[i].words
    requires '<' !in stateMd && Prefix in prose
    ensures !IsSection(BuildSection(prose, MARK_END, stateMd))
  {
    BuildsASection(prose, MARK_END, stateMd);
    MarkTrimmed();
    assert At(MARK_END, MARK_END, 0);
  }

  lemma MarkTrimmed()
    ensures TrimSlashes(MARK_END) == MARK_END && IsMarker(MARK_END)
  {
    assert MARK_END[0] == '<' && MARK_END[|MARK_END| - 1] == '>';
  }

  lemma FillersAreSolid(prefix: string, stateMd: string, m: string)
    requires '<' !in stateMd && IsMarker(m)
    ensures var p := if prefix != "" then TrimSlashes(prefix) + "/" else "";
      var sm := if stateMd != "" then stateMd else p + "STATE.md";
      && Solid(p) && Solid(sm) && (Absent(p, m) ==> Absent(sm, m))
      && (Absent(p, m) <==> Absent(TrimSlashes(prefix), m))
  {
    var p := if prefix != "" then TrimSlashes(prefix) + "/" else "";
    NoOpenerNoMarker("", m);
    NoOpenerNoMarker(stateMd, m);
    NoOpenerNoMarker("STATE.md", m);
    if prefix != "" {
      RootIsSolid(TrimSlashes(prefix), m);
    }
    SolidConcat(p, "STATE.md");
    NoneAcross(p, "STATE.md", m);
  }

  // ---------------------------------------------------------------- the one writer

  datatype Node = Missing | Symlink | NotRegular | Regular(text: string)

  datatype Action = Created | Updated | Kept | Skipped

  /** CLAUDE.md in a mineral's state folder. */
  class Folder {
    var claudeMd: Node

    constructor (n: Node)
      ensures claudeMd == n
    {
      claudeMd := n;
    }

    /** ensureBrainClaudeMd. `elsewhere`: an org box, or a brain root outside the state folder. */
    method Ensure(elsewhere: bool, section: string) returns (action: Action)
      modifies this
      ensures claudeMd == Ensured(old(claudeMd), elsewhere, section)
      ensures action == Does(old(claudeMd), elsewhere, section)
    {
      if elsewhere || claudeMd.Symlink? || claudeMd.NotRegular? {
        return Skipped;
      }
      var before := if claudeMd.Regular? then claudeMd.text else "";
      var up := Upsert(before, section);
      if up.malformed {
        return Skipped;
      }
      if claudeMd.Regular? && up.text == before {
        return Kept;
      }
      action := if claudeMd.Regular? then Updated else Created;
      claudeMd := Regular(up.text);
    }
  }

  function TextOf(n: Node): string {
    if n.Regular? then n.text else ""
  }

  predicate Untouched(n: Node, elsewhere: bool) {
    elsewhere || n.Symlink? || n.NotRegular? || Refused(TextOf(n))
  }

  function Ensured(n: Node, elsewhere: bool, section: string): Node {
    if Untouched(n, elsewhere) then n else Regular(Upsert(TextOf(n), section).text)
  }

  function Does(n: Node, elsewhere: bool, section: string): Action {
    if Untouched(n, elsewhere) then Skipped
    else if n.Missing? then Created
    else if Upsert(n.text, section).text == n.text then Kept else Updated
  }

  /** What one start leaves, and what it says it did. A missing file is made with the block alone;
      a text with a block has it replaced; one with none has it put at its end; a link, anything
      that is no file, broken markers and a brain elsewhere are left alone. */
  lemma EnsuredIs(n: Node, elsewhere: bool, section: string, a: nat, b: nat)
    ensures var e, did := Ensured(n, elsewhere, section), Does(n, elsewhere, section);
      if elsewhere || n.Symlink? || n.NotRegular? || (n.Regular? && !Intact(n.text)) then e == n && did == Skipped
      else if n.Missing? then e == Regular(section + "\n") && did == Created
      else
        && e.Regular? && did == (if e == n then Kept else Updated)
        && (BlockAt(n.text, a, b) ==> e.text == n.text[..a] + section + n.text[b + |MARK_END|..])
        && (Absent(n.text, MARK_START) && Absent(n.text, MARK_END) ==>
              e.text == (if TrimEnd(n.text) == "" then "" else TrimEnd(n.text) + "\n\n") + section + "\n")
  {
    RefusedIff(TextOf(n), section);
    RefusedIff(TextOf(n), "");
    if n.Missing? {
      EmptyTakesBlock(section);
    } else if n.Regular? {
      OutsideIsKept(n.text, section, a, b);
    }
  }

  lemma EmptyTakesBlock(section: string)
    ensures Upsert("", section) == Upserted(section + "\n", false) && Intact("")
  {
    NoneCounted("", MARK_START, 0);
    NoneCounted("", MARK_END, 0);
    assert "" + section == section;
  }

  /** Run at every box start: after the first start the file is byte for byte the same, and a
      start with a reworded block leaves what that block alone would have left. */
  lemma EnsureSettles(n: Node, elsewhere: bool, s1: string, s2: string)
    requires IsSection(s1)
    ensures Ensured(Ensured(n, elsewhere, s1), elsewhere, s2) == Ensured(n, elsewhere, s2)
    ensures Does(Ensured(n, elsewhere, s1), elsewhere, s1) in {Kept, Skipped}
    ensures Does(n, elsewhere, s1) in {Created, Updated} <==> Ensured(n, elsewhere, s1) != n
  {
    UpsertAbsorbs(TextOf(n), s1, s1);
    UpsertAbsorbs(TextOf(n), s1, s2);
    UpsertAbsorbs(TextOf(n), s1, "");
    UpsertShape(TextOf(n), s1);
    UpsertShape(TextOf(n), s2);
  }
}
