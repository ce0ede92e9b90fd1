/** The page lint: blanking passes that keep every position, and the comment lexer. */
module PageLint {
  import opened Bytes
  import opened Text

  /** A half-open span of a text. */
  datatype Span = Span(start: nat, end: nat)

  ghost predicate InBounds(spans: seq<Span>, n: nat) {
    forall k :: 0 <= k < |spans| ==> spans[k].start <= spans[k].end <= n
  }

  ghost predicate Covered(spans: seq<Span>, i: nat) {
    exists k :: 0 <= k < |spans| && spans[k].start <= i < spans[k].end
  }

  function BlankChar(c: char): char {
    if c == '\n' then '\n' else ' '
  }

  function Blank(s: string): string {
    seq(|s|, i requires 0 <= i < |s| => BlankChar(s[i]))
  }

  // ---------------------------------------------------------------- the two span passes

  ghost function Blanked(src: string, spans: seq<Span>): string {
    seq(|src|, i requires 0 <= i < |src| => if Covered(spans, i) then BlankChar(src[i]) else src[i])
  }

  ghost function Kept(src: string, spans: seq<Span>): string {
    seq(|src|, i requires 0 <= i < |src| => if Covered(spans, i) then src[i] else BlankChar(src[i]))
  }

  lemma CoveredOneMore(spans: seq<Span>, k: nat, i: nat)
    requires k < |spans|
    ensures Covered(spans[..k + 1], i) <==> Covered(spans[..k], i) || spans[k].start <= i < spans[k].end
  {
    var more := spans[..k + 1];
    if Covered(spans[..k], i) {
      var j :| 0 <= j < k && spans[..k][j].start <= i < spans[..k][j].end;
      assert more[j] == spans[..k][j];
    }
    if Covered(more, i) {
      var j :| 0 <= j < |more| && more[j].start <= i < more[j].end;
      assert j < k ==> more[j] == spans[..k][j];
    }
    assert more[k] == spans[k];
  }

  /** blankSpans: overlapping spans, in any order. */
  method BlankSpans(src: string, spans: seq<Span>) returns (out: string)
    requires InBounds(spans, |src|)
    ensures out == Blanked(src, spans)
  {
    out := src;
    for k := 0 to |spans|
      invariant |out| == |src|
      invariant forall i :: 0 <= i < |src| ==> out[i] == if Covered(spans[..k], i) then BlankChar(src[i]) else src[i]
    {
      var s := spans[k];
      out := out[..s.start] + Blank(out[s.start..s.end]) + out[s.end..];
      forall i: nat | i < |src| {
        CoveredOneMore(spans, k, i);
      }
    }
    assert spans[..|spans|] == spans;
  }

  /** keepSpans. */
  method KeepSpans(src: string, spans: seq<Span>) returns (out: string)
    requires InBounds(spans, |src|)
    ensures out == Kept(src, spans)
  {
    out := Blank(src);
    for k := 0 to |spans|
      invariant |out| == |src|
      invariant forall i :: 0 <= i < |src| ==> out[i] == if Covered(spans[..k], i) then src[i] else BlankChar(src[i])
    {
      var s := spans[k];
      out := out[..s.start] + src[s.start..s.end] + out[s.end..];
      forall i: nat | i < |src| {
        CoveredOneMore(spans, k, i);
      }
    }
    assert spans[..|spans|] == spans;
  }

  /** Character by character: inside a span one pass blanks what the other keeps, and newlines stay in both. */
  lemma SpanPassesAre(src: string, spans: seq<Span>, i: nat)
    requires i < |src|
    ensures |Blanked(src, spans)| == |Kept(src, spans)| == |src|
    ensures (exists s :: s in spans && s.start <= i < s.end) ==>
      Blanked(src, spans)[i] == (if src[i] == '\n' then '\n' else ' ') && Kept(src, spans)[i] == src[i]
    ensures (forall s :: s in spans ==> i < s.start || s.end <= i) ==>
      Kept(src, spans)[i] == (if src[i] == '\n' then '\n' else ' ') && Blanked(src, spans)[i] == src[i]
  {
  }

  // ---------------------------------------------------------------- positions

  /** b is a with some characters blanked: same length, same newlines. */
  ghost predicate Masks(a: string, b: string) {
    |a| == |b| && forall i :: 0 <= i < |a| ==> b[i] == a[i] || (b[i] == ' ' && a[i] != '\n')
  }

  lemma MasksTransitive(a: string, b: string, c: string)
    requires Masks(a, b) && Masks(b, c)
    ensures Masks(a, c)
  {
  }

  lemma SpanPassesMask(src: string, spans: seq<Span>)
    ensures Masks(src, Blanked(src, spans)) && Masks(src, Kept(src, spans))
  {
  }

  function Newlines(s: string): nat {
    if s == "" then 0 else Newlines(s[..|s| - 1]) + if s[|s| - 1] == '\n' then 1 else 0
  }

  /** The line a match at `index` is reported on. */
  function LineOf(s: string, index: nat): nat
    requires index <= |s|
  {
    1 + Newlines(s[..index])
  }

  /** A line's number is one more than the newlines before the place. */
  lemma {:induction false} LineIs(s: string, index: nat)
    requires index <= |s|
    ensures LineOf(s, index) == 1 + |set k | 0 <= k < index && s[k] == '\n'|
  {
    var before := set k | 0 <= k < index && s[k] == '\n';
    if index == 0 {
      assert before == {};
    } else {
      LineIs(s, index - 1);
      var fewer := set k | 0 <= k < index - 1 && s[k] == '\n';
      assert before == fewer + if s[index - 1] == '\n' then {index - 1} else {};
      assert s[..index][..index - 1] == s[..index - 1];
    }
  }

  lemma {:induction false} MaskedLine(a: string, b: string, index: nat)
    requires Masks(a, b) && index <= |a|
    ensures LineOf(a, index) == LineOf(b, index)
  {
    if index > 0 {
      MaskedLine(a, b, index - 1);
      assert a[..index][..index - 1] == a[..index - 1] && b[..index][..index - 1] == b[..index - 1];
    }
  }

  // ---------------------------------------------------------------- HTML comments

  const OPEN := "<!--"
  const CLOSE := "-->"

  /** The next match of the comment expression: leftmost, then shortest. */
  function NextComment(src: string, from: nat): (m: Option<Span>)
    ensures m.Some? ==> from <= m.value.start < m.value.end <= |src|
  {
    var o :- IndexOf(src, OPEN, from);
    var c :- IndexOf(src, CLOSE, o + |OPEN|);
    Some(Span(o, c + |CLOSE|))
  }

  /** All matches, each search going on from the end of the one before. */
  function Comments(src: string, from: nat): seq<Span>
    decreases |src| - from
  {
    match NextComment(src, from)
    case None => []
    case Some(m) => [m] + Comments(src, m.end)
  }

  ghost function StripComments(src: string): string {
    Blanked(src, Comments(src, 0))
  }

  lemma {:induction false} CommentsInBounds(src: string, from: nat)
    ensures InBounds(Comments(src, from), |src|)
    decreases |src| - from
  {
    var m := NextComment(src, from);
    if m.Some? {
      CommentsInBounds(src, m.value.end);
    }
  }

  lemma NotCoveredByEither(first: Span, rest: seq<Span>, i: nat)
    requires !Covered([first] + rest, i)
    ensures !(first.start <= i < first.end) && !Covered(rest, i)
  {
    assert ([first] + rest)[0] == first;
    forall k | 0 <= k < |rest|
      ensures !(rest[k].start <= i < rest[k].end)
    {
      assert ([first] + rest)[k + 1] == rest[k];
    }
  }

  /** What a comment is: the leftmost opener and, from behind it, the leftmost closer. */
  lemma FirstComment(plain: string, inner: string, rest: string)
    requires var src := plain + "<!--" + inner + "-->" + rest;
      forall i: nat :: i < |plain| ==> !At(src, "<!--", i)
    requires forall i: nat :: i < |inner| ==> !At(inner + "-->", "-->", i)
    ensures var src := plain + "<!--" + inner + "-->" + rest;
      NextComment(src, 0) == Some(Span(|plain|, |plain| + |inner| + 7))
  {
    var src := plain + "<!--" + inner + "-->" + rest;
    var a := |plain|;
    assert src[a..a + 4] == "<!--";
    IndexOfIs(src, OPEN, 0, a);
    var c := a + 4 + |inner|;
    assert src[c..c + 3] == "-->";
    forall i: nat | a + 4 <= i < c
      ensures !At(src, "-->", i)
    {
      assert !At(inner + "-->", "-->", i - a - 4);
      assert src[i..i + 3] == (inner + "-->")[i - a - 4..i - a - 1];
    }
    IndexOfIs(src, CLOSE, a + 4, c);
  }

  /** Without an opener that has a closer behind it there is none, and nothing is blanked. */
  lemma StripsNone(src: string)
    requires forall i: nat, j: nat :: At(src, "<!--", i) && i + 4 <= j ==> !At(src, "-->", j)
    ensures NextComment(src, 0).None? && StripComments(src) == src
  {
    assert Comments(src, 0) == [];
  }

  /** An opener that no comment swallowed has no closer after it. */
  lemma {:induction false} NoCommentLeft(src: string, from: nat, a: nat, b: nat)
    requires from <= a && At(src, OPEN, a) && !Covered(Comments(src, from), a)
    requires a + |OPEN| <= b
    ensures !At(src, CLOSE, b)
    decreases |src| - from
  {
    var m := NextComment(src, from);
    if m.Some? {
      NotCoveredByEither(m.value, Comments(src, m.value.end), a);
      NoCommentLeft(src, m.value.end, a, b);
    }
  }

  /** Stripping leaves nothing to strip: the blanked text holds no comment. */
  lemma StripCommentsOnce(src: string)
    ensures Comments(StripComments(src), 0) == []
    ensures StripComments(StripComments(src)) == StripComments(src)
  {
    var out := StripComments(src);
    var o := IndexOf(out, OPEN, 0);
    if o.Some? {
      OpenerWasThere(src, o.value);
      var c := IndexOf(out, CLOSE, o.value + |OPEN|);
      if c.Some? {
        CloserWasThere(src, c.value);
        NoCommentLeft(src, 0, o.value, c.value);
      }
    }
    assert Comments(out, 0) == [];
    assert Blanked(out, []) == out;
  }

  lemma OpenerWasThere(src: string, a: nat)
    requires At(StripComments(src), OPEN, a)
    ensures At(src, OPEN, a) && !Covered(Comments(src, 0), a)
  {
    var out := StripComments(src);
    AtEach(out, OPEN, a);
    AtEach(src, OPEN, a);
    assert forall k :: 0 <= k < |OPEN| ==> OPEN[k] != ' ' && OPEN[k] != '\n';
    assert out[a + 0] == OPEN[0];
  }

  lemma CloserWasThere(src: string, b: nat)
    requires At(StripComments(src), CLOSE, b)
    ensures At(src, CLOSE, b)
  {
    AtEach(StripComments(src), CLOSE, b);
    AtEach(src, CLOSE, b);
    assert forall k :: 0 <= k < |CLOSE| ==> CLOSE[k] != ' ' && CLOSE[k] != '\n';
  }

  /** findSpans with the comment expression: its loop over lastIndex. */
  method FindComments(src: string) returns (spans: seq<Span>)
    ensures spans == Comments(src, 0)
  {
    spans := [];
    var lastIndex := 0;
    var m := NextComment(src, lastIndex);
    while m.Some?
      invariant m == NextComment(src, lastIndex)
      invariant spans + Comments(src, lastIndex) == Comments(src, 0)
      decreases |src| - lastIndex
    {
      Associative(spans, [m.value], Comments(src, m.value.end));
      spans, lastIndex := spans + [m.value], m.value.end;
      m := NextComment(src, lastIndex);
    }
  }

  // ---------------------------------------------------------------- comments in code

  /** The lexer's states, each the state in which one character is read. Open reads the '*' of a
      block comment's opener, Close the '/' of its closer, Escaped what follows a backslash. */
  datatype Mode = Code | InString(quote: char) | Escaped(quote: char) | LineComment | Open | Block | Close

  predicate IsQuote(c: char) {
    c == '"' || c == '\'' || c == '`'
  }

  predicate Follows(src: string, i: nat, c: char) {
    i + 1 < |src| && src[i + 1] == c
  }

  /** A comment opens at i, if i is read as code. */
  predicate Opens(src: string, i: nat)
    requires i < |src|
  {
    src[i] == '/' && (Follows(src, i, '/') || Follows(src, i, '*'))
  }

  function Next(src: string, i: nat, m: Mode): Mode
    requires i < |src|
  {
    var c := src[i];
    match m
    case Code =>
      if IsQuote(c) then InString(c)
      else if Opens(src, i) then (if Follows(src, i, '/') then LineComment else Open)
      else Code
    case InString(q) => if c == q then Code else if c == '\\' then Escaped(q) else m
    case Escaped(q) => InString(q)
    case LineComment => if c == '\n' then Code else m
    case Open => Block
    case Block => if c == '*' && Follows(src, i, '/') then Close else m
    case Close => Code
  }

  function ModeAt(src: string, i: nat): Mode
    requires i <= |src|
  {
    if i == 0 then Code else Next(src, i - 1, ModeAt(src, i - 1))
  }

  predicate InComment(src: string, i: nat)
    requires i < |src|
  {
    match ModeAt(src, i)
    case Code => Opens(src, i)
    case LineComment => src[i] != '\n'
    case Open => true
    case Block => true
    case Close => true
    case _ => false
  }

  /** A character is blanked exactly when the lexer has it in a comment and it is no newline. */
  function JsStripped(src: string): string {
    seq(|src|, i requires 0 <= i < |src| => if InComment(src, i) then BlankChar(src[i]) else src[i])
  }

  /** Comments blanked, the lexer reads plain code and the same strings. */
  predicate Simulates(m: Mode, out: Mode) {
    if m.Code? || m.InString? || m.Escaped? then out == m else out.Code?
  }

  lemma {:induction false} StrippedModes(src: string, i: nat)
    requires i <= |src|
    ensures Simulates(ModeAt(src, i), ModeAt(JsStripped(src), i))
  {
    if i > 0 {
      StrippedModes(src, i - 1);
      NothingOpens(src, i - 1);
    }
  }

  lemma NothingOpens(src: string, i: nat)
    requires i < |src|
    ensures Opens(JsStripped(src), i) ==> !InComment(src, i) && Opens(src, i)
    ensures InComment(src, i) ==> JsStripped(src)[i] == BlankChar(src[i])
    ensures !InComment(src, i) ==> JsStripped(src)[i] == src[i]
  {
  }

  /** String contents are never altered, and stripping twice is stripping once. */
  lemma JsStripOnce(src: string)
    ensures JsStripped(JsStripped(src)) == JsStripped(src)
    ensures forall i :: 0 <= i < |src| && (ModeAt(src, i).InString? || ModeAt(src, i).Escaped?) ==>
      JsStripped(src)[i] == src[i]
  {
    var out := JsStripped(src);
    forall i | 0 <= i < |out|
      ensures !InComment(out, i)
    {
      StrippedModes(src, i);
      NothingOpens(src, i);
    }
  }

  lemma JsStripMasks(src: string)
    ensures Masks(src, JsStripped(src))
  {
  }

  /** What the walk has collected so far: bounded spans that are exactly the comments before i. */
  ghost predicate Collected(src: string, spans: seq<Span>, i: nat) {
    InBounds(spans, |src|) && forall k :: 0 <= k < i && k < |src| ==> (Covered(spans, k) <==> InComment(src, k))
  }

  lemma CollectedSpan(src: string, spans: seq<Span>, i: nat, j: nat)
    requires Collected(src, spans, i) && i <= j <= |src| && forall k :: i <= k < j ==> InComment(src, k)
    requires forall s :: s in spans ==> s.end <= i
    ensures Collected(src, spans + [Span(i, j)], j)
  {
    var more := spans + [Span(i, j)];
    forall k: nat | k < |src|
      ensures Covered(more, k) <==> Covered(spans, k) || i <= k < j
    {
      CoveredOneMore(more, |spans|, k);
      assert more[..|spans| + 1] == more && more[..|spans|] == spans;
    }
  }

  /** The string loop: from an opening quote to just past its close, or past the end. */
  method SkipString(src: string, i: nat) returns (next: nat)
    requires i < |src| && ModeAt(src, i) == Code && IsQuote(src[i])
    ensures i < next && (next <= |src| ==> ModeAt(src, next) == Code)
    ensures forall k :: i <= k < next && k < |src| ==> !InComment(src, k)
  {
    var c := src[i];
    var j := i + 1;
    while j < |src| && src[j] != c
      invariant i < j && (j <= |src| ==> ModeAt(src, j) == InString(c))
      invariant forall k :: i <= k < j && k < |src| ==> !InComment(src, k)
    {
      if src[j] == '\\' {
        j := j + 1;
      }
      j := j + 1;
    }
    next := j + 1;
  }

  method LineEnd(src: string, i: nat) returns (j: nat)
    requires i < |src| && ModeAt(src, i) == Code && src[i] == '/' && Follows(src, i, '/')
    ensures i < j <= |src| && (forall k :: i <= k < j ==> InComment(src, k))
    ensures j < |src| ==> !InComment(src, j) && ModeAt(src, j) == LineComment && src[j] == '\n'
  {
    j := i + 2;
    assert ModeAt(src, i + 1) == LineComment;
    while j < |src| && src[j] != '\n'
      invariant i + 2 <= j <= |src| && ModeAt(src, j) == LineComment
      invariant forall k :: i <= k < j ==> InComment(src, k)
    {
      j := j + 1;
    }
  }

  lemma {:induction false} BlockUntil(src: string, i: nat, k: nat)
    requires i < k <= |src| && ModeAt(src, i) == Code && src[i] == '/' && Follows(src, i, '*')
    requires i + 2 <= k && forall b: nat :: i + 2 <= b < k ==> !At(src, "*/", b)
    ensures ModeAt(src, k) == Block
    ensures forall m :: i <= m < k ==> InComment(src, m)
    decreases k
  {
    if k == i + 2 {
      assert ModeAt(src, i + 1) == Open;
    } else {
      BlockUntil(src, i, k - 1);
      AtEach(src, "*/", k - 1);
    }
  }

  method BlockEnd(src: string, i: nat) returns (j: nat)
    requires i < |src| && ModeAt(src, i) == Code && src[i] == '/' && Follows(src, i, '*')
    ensures i < j <= |src| && (forall k :: i <= k < j ==> InComment(src, k))
    ensures j < |src| ==> ModeAt(src, j) == Code
  {
    var close := IndexOf(src, "*/", i + 2);
    if close.None? {
      BlockUntil(src, i, |src|);
      return |src|;
    }
    BlockUntil(src, i, close.value);
    AtEach(src, "*/", close.value);
    assert src[close.value + 0] == '*' && src[close.value + 1] == '/';
    assert ModeAt(src, close.value + 1) == Close;
    return close.value + 2;
  }

  /** stripJsComments. */
  method StripJsComments(src: string) returns (out: string)
    ensures out == JsStripped(src)
  {
    var spans: seq<Span> := [];
    var i := 0;
    while i < |src|
      invariant i < |src| ==> ModeAt(src, i) == Code || (ModeAt(src, i) == LineComment && src[i] == '\n')
      invariant Collected(src, spans, i)
      invariant forall s :: s in spans ==> s.end <= i
      decreases |src| - i
    {
      var c := src[i];
      if IsQuote(c) {
        i := SkipString(src, i);
      } else if c == '/' && Follows(src, i, '/') {
        var j := LineEnd(src, i);
        CollectedSpan(src, spans, i, j);
        spans, i := spans + [Span(i, j)], j;
      } else if c == '/' && Follows(src, i, '*') {
        var j := BlockEnd(src, i);
        CollectedSpan(src, spans, i, j);
        spans, i := spans + [Span(i, j)], j;
      } else {
        i := i + 1;
      }
    }
    out := BlankSpans(src, spans);
  }

  // ---------------------------------------------------------------- comments in code, piece by piece

  /** Code as it is written: a character of its own, a string with its quotes, a line comment with
      its newline, a block comment. */
  datatype Piece = Char(c: char) | Quotation(quote: char, body: string) | Remark(text: string) | Aside(text: string)

  function Written(p: Piece): string {
    match p
    case Char(c) => [c]
    case Quotation(q, body) => [q] + body + [q]
    case Remark(text) => "//" + text + "\n"
    case Aside(text) => "/*" + text + "*/"
  }

  /** The same with its comments blanked, newlines kept. */
  function Cleaned(p: Piece): string {
    match p
    case Char(c) => [c]
    case Quotation(q, body) => [q] + body + [q]
    case Remark(text) => "  " + Spaces(text) + "\n"
    case Aside(text) => "  " + Spaces(text) + "  "
  }

  function Spaces(s: string): string {
    seq(|s|, i requires 0 <= i < |s| => if s[i] == '\n' then '\n' else ' ')
  }

  /** The inside of a string: no quote of its kind but behind a backslash, which takes one character. */
  predicate Inside(body: string, q: char) {
    if body == "" then true
    else if body[0] == '\\' then |body| >= 2 && Inside(body[2..], q)
    else body[0] != q && Inside(body[1..], q)
  }

  /** A piece that reads as it is meant in front of this rest. */
  ghost predicate Reads(p: Piece, rest: string) {
    match p
    case Char(c) => c !in {'"', '\'', '`'} && (c == '/' ==> rest == "" || rest[0] !in {'/', '*'})
    case Quotation(q, body) => q in {'"', '\'', '`'} && Inside(body, q)
    case Remark(text) => '\n' !in text
    case Aside(text) => forall b: nat :: b < |text| ==> !At(text + "*/", "*/", b)
  }

  function WrittenAll(pieces: seq<Piece>): string {
    if pieces == [] then "" else Written(pieces[0]) + WrittenAll(pieces[1..])
  }

  function CleanedAll(pieces: seq<Piece>): string {
    if pieces == [] then "" else Cleaned(pieces[0]) + CleanedAll(pieces[1..])
  }

  ghost predicate ReadsAll(pieces: seq<Piece>) {
    pieces != [] ==> Reads(pieces[0], WrittenAll(pieces[1..])) && ReadsAll(pieces[1..])
  }

  /** From a place that is read as code on, the lexer reads as from the beginning. */
  lemma {:induction false} ModeFrom(src: string, k: nat, j: nat)
    requires k + j <= |src| && ModeAt(src, k) == Code
    ensures ModeAt(src, k + j) == ModeAt(src[k..], j)
    ensures k + j < |src| ==> (InComment(src, k + j) <==> InComment(src[k..], j))
  {
    if j > 0 {
      ModeFrom(src, k, j - 1);
      assert src[k..][j - 1] == src[k + j - 1];
    }
  }

  /** What stands before a place read as code is stripped on its own. */
  lemma StrippedFrom(src: string, k: nat)
    requires k <= |src| && ModeAt(src, k) == Code
    ensures JsStripped(src)[k..] == JsStripped(src[k..])
  {
    forall j | 0 <= j < |src| - k
      ensures JsStripped(src)[k + j] == JsStripped(src[k..])[j]
    {
      StrippedAt(src, src[k..], k, j);
    }
  }

  lemma StrippedAt(src: string, tail: string, k: nat, j: nat)
    requires k + j < |src| && ModeAt(src, k) == Code && tail == src[k..]
    ensures JsStripped(src)[k + j] == JsStripped(tail)[j]
  {
    ModeFrom(src, k, j);
    assert tail[j] == src[k + j];
  }

  lemma {:induction false} StringBody(src: string, i: nat, q: char, body: string, rest: string)
    requires i <= |src| && src[i..] == body + [q] + rest && ModeAt(src, i) == InString(q)
    requires Inside(body, q) && q != '\\'
    ensures ModeAt(src, i + |body| + 1) == Code
    ensures forall k :: i <= k < i + |body| + 1 ==> !InComment(src, k)
    decreases |body|
  {
    assert src[i] == (body + [q] + rest)[0];
    if body != "" && body[0] == '\\' {
      assert src[i + 1] == (body + [q] + rest)[1];
      assert src[i + 2..] == (body + [q] + rest)[2..] == body[2..] + [q] + rest;
      assert ModeAt(src, i + 1) == Escaped(q);
      StringBody(src, i + 2, q, body[2..], rest);
    } else if body != "" {
      assert src[i + 1..] == (body + [q] + rest)[1..] == body[1..] + [q] + rest;
      StringBody(src, i + 1, q, body[1..], rest);
    }
  }

  lemma {:induction false} RemarkBody(src: string, text: string, rest: string, k: nat)
    requires src == "//" + text + "\n" + rest && '\n' !in text && 1 <= k <= |text| + 2
    ensures ModeAt(src, k) == LineComment && forall m :: 0 <= m < k ==> InComment(src, m)
  {
    if k > 1 {
      RemarkBody(src, text, rest, k - 1);
      if k - 1 == 1 {
        assert src[1] == '/';
      } else {
        assert src[k - 1] == text[k - 3] && text[k - 3] in text;
      }
    } else {
      assert src[0] == '/' && src[1] == '/';
    }
  }

  lemma AsideBody(src: string, text: string, rest: string)
    requires src == "/*" + text + "*/" + rest && forall b: nat :: b < |text| ==> !At(text + "*/", "*/", b)
    ensures ModeAt(src, |text| + 4) == Code && forall m :: 0 <= m < |text| + 4 ==> InComment(src, m)
  {
    var n := |text| + 2;
    forall b: nat | 2 <= b < n
      ensures !At(src, "*/", b)
    {
      assert !At(text + "*/", "*/", b - 2);
      assert src[b..b + 2] == (text + "*/")[b - 2..b];
    }
    assert src[0] == '/' && src[1] == '*';
    BlockUntil(src, 0, n);
    assert src[n] == '*' && src[n + 1] == '/';
    assert ModeAt(src, n + 1) == Close;
  }

  /** A head of a text that comes out as `clean`, with code behind it. */
  ghost predicate ComesOut(head: string, rest: string, clean: string) {
    && |clean| == |head| && ModeAt(head + rest, |head|) == Code
    && forall k :: 0 <= k < |head| ==> JsStripped(head + rest)[k] == clean[k]
  }

  lemma CharStripped(c: char, rest: string)
    requires Reads(Char(c), rest)
    ensures ComesOut([c], rest, [c])
  {
    var src := [c] + rest;
    assert src[0] == c && src[1..] == rest;
    assert ModeAt(src, 0) == Code;
  }

  lemma QuotationStripped(q: char, body: string, rest: string)
    requires Reads(Quotation(q, body), rest)
    ensures ComesOut([q] + body + [q], rest, [q] + body + [q])
  {
    var head := [q] + body + [q];
    var src := head + rest;
    assert src[0] == q && src[1..] == body + [q] + rest;
    assert ModeAt(src, 1) == InString(q);
    StringBody(src, 1, q, body, rest);
  }

  lemma RemarkStripped(text: string, rest: string)
    requires Reads(Remark(text), rest)
    ensures ComesOut("//" + text + "\n", rest, "  " + Spaces(text) + "\n")
  {
    var src := "//" + text + "\n" + rest;
    RemarkBody(src, text, rest, |text| + 2);
    assert src[|text| + 2] == '\n';
  }

  lemma AsideStripped(text: string, rest: string)
    requires Reads(Aside(text), rest)
    ensures ComesOut("/*" + text + "*/", rest, "  " + Spaces(text) + "  ")
  {
    AsideBody("/*" + text + "*/" + rest, text, rest);
  }

  /** One piece: it comes out cleaned, and behind it the lexer reads code. */
  lemma PieceStripped(p: Piece, rest: string)
    requires Reads(p, rest)
    ensures ComesOut(Written(p), rest, Cleaned(p))
  {
    match p
    case Char(c) => CharStripped(c, rest);
    case Quotation(q, body) => QuotationStripped(q, body, rest);
    case Remark(text) => RemarkStripped(text, rest);
    case Aside(text) => AsideStripped(text, rest);
  }

  lemma HeadAndRest(head: string, rest: string, clean: string)
    requires ComesOut(head, rest, clean)
    ensures JsStripped(head + rest) == clean + JsStripped(rest)
  {
    var src := head + rest;
    StrippedFrom(src, |head|);
    assert src[|head|..] == rest;
    forall k | 0 <= k < |src|
      ensures JsStripped(src)[k] == (clean + JsStripped(rest))[k]
    {
      assert k >= |head| ==> JsStripped(src)[k] == JsStripped(src)[|head|..][k - |head|];
    }
  }

  /** Any code written piece by piece comes out piece by piece, its comments blanked and nothing
      else: not a string that looks like one, whatever its quotes and escapes. */
  lemma {:induction false} StripsPieces(pieces: seq<Piece>)
    requires ReadsAll(pieces)
    ensures JsStripped(WrittenAll(pieces)) == CleanedAll(pieces)
  {
    if pieces != [] {
      StripsPieces(pieces[1..]);
      PieceStripped(pieces[0], WrittenAll(pieces[1..]));
      HeadAndRest(Written(pieces[0]), WrittenAll(pieces[1..]), Cleaned(pieces[0]));
    }
  }

  // ---------------------------------------------------------------- lintPage

  datatype Hit = Hit(index: nat, rule: string, detail: string)

  datatype Violation = Violation(rule: string, detail: string, line: nat)

  /** What the lint's other expressions match: spans of code and of prose code samples, and hits.
      Nothing is asked of them but that they stay inside the text. */
  datatype Rules = Rules(codeSpans: string -> seq<Span>, sampleSpans: string -> seq<Span>,
                         externalUrl: string -> seq<Hit>, scriptSrc: string -> seq<Hit>, code: string -> seq<Hit>)

  ghost predicate HitsInside(hits: seq<Hit>, n: nat) {
    forall k :: 0 <= k < |hits| ==> hits[k].index <= n
  }

  ghost predicate StayInside(r: Rules) {
    forall s: string ::
      && InBounds(r.codeSpans(s), |s|) && InBounds(r.sampleSpans(s), |s|)
      && HitsInside(r.externalUrl(s), |s|) && HitsInside(r.scriptSrc(s), |s|) && HitsInside(r.code(s), |s|)
  }

  /** The three texts the rules scan. */
  ghost function NoComments(raw: string): string {
    StripComments(raw)
  }

  ghost function ProseSafe(r: Rules, raw: string): string {
    Blanked(NoComments(raw), r.sampleSpans(NoComments(raw)))
  }

  ghost function CodeOnly(r: Rules, raw: string): string {
    JsStripped(Kept(NoComments(raw), r.codeSpans(NoComments(raw))))
  }

  /** Every text the lint scans has the raw page's length and newlines, each other character
      its own or a space, so every line it counts is a line of the raw page. */
  lemma ScannedTextsKeepPositions(r: Rules, raw: string, index: nat)
    ensures Masks(raw, NoComments(raw)) && Masks(raw, ProseSafe(r, raw)) && Masks(raw, CodeOnly(r, raw))
    ensures index <= |raw| ==> LineOf(NoComments(raw), index) == LineOf(raw, index)
  {
    var plain := NoComments(raw);
    SpanPassesMask(raw, Comments(raw, 0));
    SpanPassesMask(plain, r.sampleSpans(plain));
    SpanPassesMask(plain, r.codeSpans(plain));
    var kept := Kept(plain, r.codeSpans(plain));
    JsStripMasks(kept);
    MasksTransitive(raw, plain, ProseSafe(r, raw));
    MasksTransitive(raw, plain, kept);
    MasksTransitive(raw, kept, CodeOnly(r, raw));
    if index <= |raw| {
      MaskedLine(raw, plain, index);
    }
  }

  /** Hits as violations, each on its line of the page. */
  function Report(page: string, hits: seq<Hit>): seq<Violation>
    requires forall k :: 0 <= k < |hits| ==> hits[k].index <= |page|
  {
    seq(|hits|, k requires 0 <= k < |hits| => Violation(hits[k].rule, hits[k].detail, LineOf(page, hits[k].index)))
  }

  ghost function Hits(r: Rules, raw: string): seq<Hit> {
    r.externalUrl(ProseSafe(r, raw)) + r.scriptSrc(NoComments(raw)) + r.code(CodeOnly(r, raw))
  }

  lemma HitsStayInside(r: Rules, raw: string)
    requires StayInside(r)
    ensures HitsInside(Hits(r, raw), |raw|)
  {
  }

  /** Array.prototype.sort by line: stable. */
  function Insert(v: Violation, sorted: seq<Violation>): seq<Violation> {
    if sorted == [] || v.line <= sorted[0].line then [v] + sorted else [sorted[0]] + Insert(v, sorted[1..])
  }

  function SortByLine(vs: seq<Violation>): seq<Violation> {
    if vs == [] then [] else Insert(vs[0], SortByLine(vs[1..]))
  }

  ghost predicate ByLine(vs: seq<Violation>) {
    forall i, j :: 0 <= i < j < |vs| ==> vs[i].line <= vs[j].line
  }

  lemma {:induction false} InsertSorts(v: Violation, sorted: seq<Violation>)
    requires ByLine(sorted)
    ensures ByLine(Insert(v, sorted)) && multiset(Insert(v, sorted)) == multiset([v]) + multiset(sorted)
    ensures forall w :: w in Insert(v, sorted) ==> w == v || w in sorted
  {
    if sorted != [] && v.line > sorted[0].line {
      var rest := sorted[1..];
      assert sorted == [sorted[0]] + rest;
      InsertSorts(v, rest);
      ByLineCons(sorted[0], Insert(v, rest));
    } else {
      ByLineCons(v, sorted);
    }
  }

  lemma ByLineCons(v: Violation, sorted: seq<Violation>)
    requires ByLine(sorted) && forall w :: w in sorted ==> v.line <= w.line
    ensures ByLine([v] + sorted)
  {
    forall i, j | 0 <= i < j < |[v] + sorted|
      ensures ([v] + sorted)[i].line <= ([v] + sorted)[j].line
    {
      assert sorted[j - 1] in sorted;
    }
  }

  lemma {:induction false} SortByLineSorts(vs: seq<Violation>)
    ensures ByLine(SortByLine(vs)) && multiset(SortByLine(vs)) == multiset(vs)
  {
    if vs != [] {
      SortByLineSorts(vs[1..]);
      InsertSorts(vs[0], SortByLine(vs[1..]));
      assert vs == [vs[0]] + vs[1..];
    }
  }

  /** The violations on one line, in the order they stand. */
  function OnLine(vs: seq<Violation>, line: nat): seq<Violation> {
    if vs == [] then [] else (if vs[0].line == line then [vs[0]] else []) + OnLine(vs[1..], line)
  }

  lemma {:induction false} OnLineCons(v: Violation, vs: seq<Violation>, line: nat)
    ensures OnLine([v] + vs, line) == (if v.line == line then [v] else []) + OnLine(vs, line)
  {
    assert ([v] + vs)[1..] == vs;
  }

  lemma {:induction false} InsertKeepsOrder(v: Violation, sorted: seq<Violation>, line: nat)
    ensures OnLine(Insert(v, sorted), line) == (if v.line == line then [v] else []) + OnLine(sorted, line)
  {
    if sorted == [] || v.line <= sorted[0].line {
      OnLineCons(v, sorted, line);
    } else {
      var u, rest := sorted[0], sorted[1..];
      InsertKeepsOrder(v, rest, line);
      OnLineCons(u, Insert(v, rest), line);
      if u.line == line {
        assert OnLine(Insert(v, rest), line) == OnLine(rest, line);
      }
    }
  }

  /** Sorting by line keeps the order on each line: it is stable. */
  lemma {:induction false} SortKeepsOrder(vs: seq<Violation>, line: nat)
    ensures OnLine(SortByLine(vs), line) == OnLine(vs, line)
  {
    if vs != [] {
      SortKeepsOrder(vs[1..], line);
      InsertKeepsOrder(vs[0], SortByLine(vs[1..]), line);
    }
  }

  /** The report is the three rules' hits, each rule on the text it scans: links on prose without
      code samples, script sources on the page without comments, the rest on code without comments. */
  ghost predicate ReportsAll(r: Rules, raw: string, violations: seq<Violation>) {
    var plain := StripComments(raw);
    var links := r.externalUrl(Blanked(plain, r.sampleSpans(plain)));
    var sources := r.scriptSrc(plain);
    var code := r.code(JsStripped(Kept(plain, r.codeSpans(plain))));
    && HitsInside(links, |raw|) && HitsInside(sources, |raw|) && HitsInside(code, |raw|)
    && multiset(violations)
       == multiset(Report(raw, links)) + multiset(Report(raw, sources)) + multiset(Report(raw, code))
  }

  lemma ReportConcat(page: string, a: seq<Hit>, b: seq<Hit>)
    requires HitsInside(a, |page|) && HitsInside(b, |page|)
    ensures HitsInside(a + b, |page|) && Report(page, a + b) == Report(page, a) + Report(page, b)
  {
  }

  lemma HitsReported(r: Rules, raw: string, violations: seq<Violation>)
    requires StayInside(r) && HitsInside(Hits(r, raw), |raw|)
    requires multiset(violations) == multiset(Report(raw, Hits(r, raw)))
    ensures ReportsAll(r, raw, violations)
  {
    var plain := NoComments(raw);
    ScannedTextsKeepPositions(r, raw, 0);
    var links, sources, code := r.externalUrl(ProseSafe(r, raw)), r.scriptSrc(plain), r.code(CodeOnly(r, raw));
    ReportConcat(raw, links, sources);
    ReportConcat(raw, links + sources, code);
  }

  /** lintPage: what is reported is exactly the hits, each on its line of the raw page, by line. */
  method LintPage(r: Rules, raw: string) returns (ok: bool, violations: seq<Violation>)
    requires StayInside(r)
    ensures HitsInside(Hits(r, raw), |raw|)
    ensures violations == SortByLine(Report(raw, Hits(r, raw)))
    ensures ByLine(violations) && ReportsAll(r, raw, violations)
    ensures forall n :: OnLine(violations, n) == OnLine(Report(raw, Hits(r, raw)), n)
    ensures ok <==> violations == []
  {
    var comments := FindComments(raw);
    CommentsInBounds(raw, 0);
    var noComments := BlankSpans(raw, comments);
    var kept := KeepSpans(noComments, r.codeSpans(noComments));
    var codeOnly := StripJsComments(kept);
    var proseSafe := BlankSpans(noComments, r.sampleSpans(noComments));
    HitsStayInside(r, raw);
    ScannedTextsKeepPositions(r, raw, 0);
    var hits := r.externalUrl(proseSafe) + r.scriptSrc(noComments) + r.code(codeOnly);
    violations := Report(noComments, hits);
    ReportAnywhere(r, raw, hits);
    SortByLineSorts(violations);
    forall n {
      SortKeepsOrder(violations, n);
    }
    violations := SortByLine(violations);
    HitsReported(r, raw, violations);
    ok := violations == [];
  }

  lemma ReportAnywhere(r: Rules, raw: string, hits: seq<Hit>)
    requires HitsInside(hits, |raw|)
    ensures |NoComments(raw)| == |raw| && Report(NoComments(raw), hits) == Report(raw, hits)
  {
    ScannedTextsKeepPositions(r, raw, 0);
    forall k | 0 <= k < |hits|
      ensures LineOf(NoComments(raw), hits[k].index) == LineOf(raw, hits[k].index)
    {
      ScannedTextsKeepPositions(r, raw, hits[k].index);
    }
  }

  /** Linting ignores HTML comments: a page and its stripped form are the same page to the lint. */
  lemma LintIgnoresComments(r: Rules, raw: string)
    requires StayInside(r)
    ensures Hits(r, StripComments(raw)) == Hits(r, raw)
    ensures HitsInside(Hits(r, raw), |raw|) && |StripComments(raw)| == |raw|
    ensures Report(StripComments(raw), Hits(r, StripComments(raw))) == Report(raw, Hits(r, raw))
  {
    StripCommentsOnce(raw);
    HitsStayInside(r, raw);
    ReportAnywhere(r, raw, Hits(r, raw));
  }

  /** Two pages that differ only inside comments of the same extent, newlines alike, get the same
      violations. */
  lemma LintSeesNoComment(r: Rules, p: string, q: string)
    requires StayInside(r)
    requires |p| == |q| && Comments(p, 0) == Comments(q, 0)
    requires forall i :: 0 <= i < |p| ==>
      BlankChar(p[i]) == BlankChar(q[i]) && (p[i] == q[i] || Covered(Comments(p, 0), i))
    ensures Hits(r, p) == Hits(r, q) && HitsInside(Hits(r, p), |p|) && Report(p, Hits(r, p)) == Report(q, Hits(r, q))
  {
    assert StripComments(p) == StripComments(q);
    HitsStayInside(r, p);
    ReportAnywhere(r, p, Hits(r, p));
    ReportAnywhere(r, q, Hits(r, q));
  }
}
