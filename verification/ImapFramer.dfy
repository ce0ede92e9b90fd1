/** The command framer of an IMAP connection: lines, and literals (section 4.3 of RFC 3501). The
    connection carries bytes; a line is decoded once it is whole, a literal never is. */
module ImapFramer {
  import opened Bytes
  import opened Text

  const CRLF: seq<Byte> := [13, 10]

  /** What Buffer.toString('utf8') makes of a line's bytes. */
  type Decoding = seq<Byte> -> string

  /** Decoding undoes encoding; of bytes that no text encodes to, nothing is asked. */
  ghost predicate Decodes(decode: Decoding) {
    forall s: string :: decode(Utf8(s)) == s
  }

  /** There is such a decoding. */
  lemma Utf8Decodes()
    ensures Decodes(ReadUtf8)
  {
    forall s: string {
      ReadUtf8Back(s);
    }
  }

  /** A command under way; need is None but while a literal is coming. */
  datatype Pending = Pending(tag: string, line: string, need: Option<nat>, parts: seq<seq<Byte>>)

  datatype State = State(buf: seq<Byte>, pending: Option<Pending>)

  datatype Event = GoAhead | Command(tag: string, line: string, literals: seq<seq<Byte>>)

  // ---------------------------------------------------------------- numbers and literal marks

  predicate IsDigit(c: char) {
    '0' <= c <= '9'
  }

  function Decimal(n: nat): string {
    (if n < 10 then "" else Decimal(n / 10)) + [('0' as int + n % 10) as char]
  }

  function DigitValue(c: char): nat
    requires IsDigit(c)
  {
    c as int - '0' as int
  }

  function Number(s: string): nat
    requires forall i :: 0 <= i < |s| ==> IsDigit(s[i])
  {
    if s == "" then 0 else Number(s[..|s| - 1]) * 10 + DigitValue(s[|s| - 1])
  }

  lemma {:induction false} NumberOfDecimal(n: nat)
    ensures Decimal(n) != "" && forall i :: 0 <= i < |Decimal(n)| ==> IsDigit(Decimal(n)[i])
    ensures Number(Decimal(n)) == n
  {
    if n >= 10 {
      NumberOfDecimal(n / 10);
      assert Decimal(n)[..|Decimal(n)| - 1] == Decimal(n / 10);
    } else {
      assert Decimal(n)[..0] == "";
    }
  }

  /** Where the run of digits that ends at e begins. */
  function RunStart(s: string, e: nat): (k: nat)
    requires e <= |s|
    ensures k <= e && forall i :: k <= i < e ==> IsDigit(s[i])
    ensures k > 0 ==> !IsDigit(s[k - 1])
  {
    if e > 0 && IsDigit(s[e - 1]) then RunStart(s, e - 1) else e
  }

  /** A literal's mark {n} at the end of a line: where it begins, and n. */
  function Mark(line: string): (m: Option<(nat, nat)>)
    ensures m.Some? ==> m.value.0 < |line|
  {
    if line == "" || line[|line| - 1] != '}' then None else
    var e := |line| - 1;
    var k := RunStart(line, e);
    if k == e || k == 0 || line[k - 1] != '{' then None else Some((k - 1, Number(line[k..e])))
  }

  function PrintMark(n: nat): string {
    "{" + Decimal(n) + "}"
  }

  lemma {:induction false} RunStartIs(s: string, k: nat, e: nat)
    requires k <= e <= |s| && (forall i :: k <= i < e ==> IsDigit(s[i])) && (k > 0 ==> !IsDigit(s[k - 1]))
    ensures RunStart(s, e) == k
  {
    if k < e {
      RunStartIs(s, k, e - 1);
    }
  }

  /** Digits from k up to e, at least one of them, and braces around them. */
  ghost predicate MarkedFrom(line: string, k: nat) {
    && k + 3 <= |line| && line[k] == '{' && line[|line| - 1] == '}'
    && forall i :: k < i < |line| - 1 ==> '0' <= line[i] <= '9'
  }

  /** What a mark is: {digits} at the very end of a line, read as the number the digits write. */
  lemma MarkIs(line: string, k: nat)
    ensures MarkedFrom(line, k) ==> Mark(line).Some? && Mark(line).value.0 == k
    ensures Mark(line).Some? ==> MarkedFrom(line, Mark(line).value.0)
    ensures Mark(line).Some? ==> Written(line[Mark(line).value.0 + 1..|line| - 1], Mark(line).value.1)
  {
    if MarkedFrom(line, k) {
      RunStartIs(line, k + 1, |line| - 1);
    }
    if Mark(line).Some? {
      NumberIs(line[Mark(line).value.0 + 1..|line| - 1]);
    }
  }

  /** Digits that write a number, leading zeros or not. */
  ghost predicate Written(s: string, n: nat) {
    if s == "" then n == 0
    else '0' <= s[|s| - 1] <= '9' && n % 10 == s[|s| - 1] as int - '0' as int && Written(s[..|s| - 1], n / 10)
  }

  lemma {:induction false} NumberIs(s: string)
    requires forall i :: 0 <= i < |s| ==> IsDigit(s[i])
    ensures Written(s, Number(s))
  {
    if s != "" {
      NumberIs(s[..|s| - 1]);
    }
  }

  lemma MarkOfPrinted(seg: string, n: nat)
    ensures Mark(seg + PrintMark(n)) == Some((|seg|, n))
  {
    var line := seg + PrintMark(n);
    NumberOfDecimal(n);
    MarkParts(seg, Decimal(n));
    RunStartIs(line, |seg| + 1, |line| - 1);
  }

  /** A mark's brace, its digits and its brace, in a line. */
  lemma MarkParts(seg: string, digits: string)
    requires forall i :: 0 <= i < |digits| ==> IsDigit(digits[i])
    ensures var line := seg + ("{" + digits + "}");
      && |line| == |seg| + |digits| + 2 && line[|seg|] == '{' && line[|line| - 1] == '}'
      && line[|seg| + 1..|line| - 1] == digits && line[..|seg|] == seg
      && forall i :: |seg| + 1 <= i < |line| - 1 ==> IsDigit(line[i])
  {
    var line := seg + ("{" + digits + "}");
    forall i | |seg| + 1 <= i < |line| - 1
      ensures IsDigit(line[i])
    {
      assert line[i] == digits[i - |seg| - 1];
    }
  }

  // ---------------------------------------------------------------- one step

  /** The name a received literal has in the line: {LIT0}, {LIT1}, ... */
  function LiteralName(i: nat): string {
    "{LIT" + Decimal(i) + "}"
  }

  function MarkReplaced(line: string, i: nat): string {
    match Mark(line)
    case None => line
    case Some(m) => line[..m.0] + LiteralName(i)
  }

  /** A line begins a command, its tag up to the first space, or goes on with the pending one. */
  function Extended(pending: Option<Pending>, line: string): Pending {
    match pending
    case Some(p) => p.(line := p.line + line)
    case None =>
      match IndexOf(line, " ", 0)
      case Some(sp) => Pending(line[..sp], line[sp + 1..], None, [])
      case None => Pending(if line == "" then "" else line[..|line| - 1], line, None, [])
  }

  /** How a line that begins a command is cut: at its first space, or with none before its last
      character, as slice does with an index of -1. A further line is put behind the line so far. */
  lemma LineCut(pending: Option<Pending>, tag: string, rest: string)
    requires ' ' !in tag
    ensures Extended(None, tag + " " + rest) == Pending(tag, rest, None, [])
    ensures Extended(None, tag) == Pending(if tag == "" then "" else tag[..|tag| - 1], tag, None, [])
    ensures pending.Some? ==> Extended(pending, rest) == pending.value.(line := pending.value.line + rest)
  {
    var line := tag + " " + rest;
    assert line[|tag|..|tag| + 1] == " ";
    forall i: nat | i < |tag|
      ensures !At(line, " ", i)
    {
      assert line[i..i + 1][0] == tag[i];
    }
    IndexOfIs(line, " ", 0, |tag|);
    NoSpaceIn(tag);
    assert line[..|tag|] == tag && line[|tag| + 1..] == rest;
  }

  lemma NoSpaceIn(tag: string)
    requires ' ' !in tag
    ensures IndexOf(tag, " ", 0).None?
  {
    forall i: nat
      ensures !At(tag, " ", i)
    {
      if i < |tag| {
        assert tag[i..i + 1][0] == tag[i] && tag[i] in tag;
      }
    }
  }

  /** What a whole line does: await the literal it announces, or run the command it ends. */
  function AfterLine(pending: Option<Pending>, line: string): (Option<Pending>, Event) {
    var p := Extended(pending, line);
    match Mark(line)
    case Some(m) => (Some(p.(line := MarkReplaced(p.line, |p.parts|), need := Some(m.1))), GoAhead)
    case None => (None, Command(p.tag, p.line, p.parts))
  }

  predicate Awaits(s: State) {
    s.pending.Some? && s.pending.value.need.Some?
  }

  /** One turn of the loop; None when more bytes are needed. */
  function Step(decode: Decoding, s: State): Option<(State, seq<Event>)> {
    if Awaits(s) then
      var p, need := s.pending.value, s.pending.value.need.value;
      if |s.buf| < need then None
      else Some((State(s.buf[need..], Some(p.(parts := p.parts + [s.buf[..need]], need := None))), []))
    else
      var nl :- IndexOf(s.buf, CRLF, 0);
      var after := AfterLine(s.pending, decode(s.buf[..nl]));
      Some((State(s.buf[nl + 2..], after.0), [after.1]))
  }

  /** A turn uses up bytes, or answers a literal of no bytes that was being waited for. */
  function Work(s: State): nat {
    2 * |s.buf| + if Awaits(s) then 1 else 0
  }

  lemma StepProgress(decode: Decoding, s: State)
    requires Step(decode, s).Some?
    ensures Work(Step(decode, s).value.0) < Work(s)
  {
  }

  /** The loop, to the point where it waits. */
  function Drain(decode: Decoding, s: State): (State, seq<Event>)
    decreases Work(s)
  {
    match Step(decode, s)
    case None => (s, [])
    case Some(t) =>
      StepProgress(decode, s);
      var d := Drain(decode, t.0);
      (d.0, t.1 + d.1)
  }

  function More(s: State, d: seq<Byte>): State {
    s.(buf := s.buf + d)
  }

  /** The data handler: append a chunk, then loop. */
  function Feed(decode: Decoding, s: State, d: seq<Byte>): (State, seq<Event>) {
    Drain(decode, More(s, d))
  }

  // ---------------------------------------------------------------- chunking does not matter

  /** A step that can be taken is taken alike when more bytes are there. */
  lemma StepMore(decode: Decoding, s: State, d: seq<Byte>)
    requires Step(decode, s).Some?
    ensures Step(decode, More(s, d)) == Some((More(Step(decode, s).value.0, d), Step(decode, s).value.1))
  {
    if Awaits(s) {
      CutMore(s.buf, d, s.pending.value.need.value);
    } else {
      var nl := IndexOf(s.buf, CRLF, 0).value;
      FirstLineMore(s.buf, d, nl);
      CutMore(s.buf, d, nl);
      CutMore(s.buf, d, nl + 2);
    }
  }

  lemma CutMore(a: seq<Byte>, b: seq<Byte>, n: nat)
    requires n <= |a|
    ensures (a + b)[..n] == a[..n] && (a + b)[n..] == a[n..] + b
  {
  }

  lemma FirstLineMore(buf: seq<Byte>, d: seq<Byte>, nl: nat)
    requires IndexOf(buf, CRLF, 0) == Some(nl)
    ensures IndexOf(buf + d, CRLF, 0) == Some(nl)
  {
    var b := buf + d;
    assert b[nl..nl + 2] == buf[nl..nl + 2];
    forall i: nat | i < nl
      ensures !At(b, CRLF, i)
    {
      assert !At(buf, CRLF, i) && b[i..i + 2] == buf[i..i + 2];
    }
    IndexOfIs(b, CRLF, 0, nl);
  }

  lemma {:induction false} DrainMore(decode: Decoding, s: State, d: seq<Byte>)
    ensures Drain(decode, More(s, d)).0 == Drain(decode, More(Drain(decode, s).0, d)).0
    ensures Drain(decode, More(s, d)).1 == Drain(decode, s).1 + Drain(decode, More(Drain(decode, s).0, d)).1
    decreases Work(s)
  {
    var step := Step(decode, s);
    if step.Some? {
      var t, e := step.value.0, step.value.1;
      StepProgress(decode, s);
      StepMore(decode, s, d);
      DrainMore(decode, t, d);
      Associative(e, Drain(decode, t).1, Drain(decode, More(Drain(decode, t).0, d)).1);
    }
  }

  /** Two chunks are one: same state left over, same events in the same order. */
  lemma TwoChunks(decode: Decoding, s: State, a: seq<Byte>, b: seq<Byte>)
    ensures Feed(decode, s, a + b).0 == Feed(decode, Feed(decode, s, a).0, b).0
    ensures Feed(decode, s, a + b).1 == Feed(decode, s, a).1 + Feed(decode, Feed(decode, s, a).0, b).1
  {
    DrainMore(decode, More(s, a), b);
    Associative(s.buf, a, b);
  }

  function FeedAll(decode: Decoding, s: State, chunks: seq<seq<Byte>>): (State, seq<Event>)
    decreases |chunks|
  {
    if chunks == [] then (s, []) else
    var first := Feed(decode, s, chunks[0]);
    var rest := FeedAll(decode, first.0, chunks[1..]);
    (rest.0, first.1 + rest.1)
  }

  function Joined(chunks: seq<seq<Byte>>): seq<Byte> {
    if chunks == [] then [] else chunks[0] + Joined(chunks[1..])
  }

  /** Any split of a stream into chunks, inside a line break, a character or a literal or not, gives
      the same commands and the same state as the stream fed whole. */
  lemma {:induction false} ChunkingIsInvisible(decode: Decoding, s: State, chunks: seq<seq<Byte>>)
    requires chunks != []
    ensures FeedAll(decode, s, chunks) == Feed(decode, s, Joined(chunks))
    decreases |chunks|
  {
    var first := Feed(decode, s, chunks[0]);
    if |chunks| == 1 {
      assert chunks[1..] == [];
      assert Joined(chunks) == chunks[0] + [] == chunks[0];
      assert first.1 + [] == first.1;
    } else {
      ChunkingIsInvisible(decode, first.0, chunks[1..]);
      TwoChunks(decode, s, chunks[0], Joined(chunks[1..]));
    }
  }

  // ---------------------------------------------------------------- line breaks, as text and as bytes

  /** No line break in a text. */
  predicate OneLine(s: string) {
    forall i | 0 <= i < |s| - 1 :: !(s[i] == '\r' && s[i + 1] == '\n')
  }

  lemma BreakAt(b: seq<Byte>, i: nat)
    ensures At(b, CRLF, i) <==> i + 1 < |b| && b[i] == 13 && b[i + 1] == 10
  {
    if i + 2 <= |b| {
      assert b[i..i + 2] == [b[i], b[i + 1]];
    }
  }

  /** Of a character's bytes only the first of an ASCII character is below 128. */
  lemma LowBytes(c: char, k: nat)
    requires k < |Utf8Char(c)| && Utf8Char(c)[k] < 128
    ensures Utf8Char(c) == [c as int] && k == 0
  {
  }

  lemma FirstByte(s: string)
    requires Utf8(s) != [] && Utf8(s)[0] < 128
    ensures s != "" && s[0] as int == Utf8(s)[0]
  {
    LowBytes(s[0], 0);
  }

  /** A text of one line is encoded without a line break. */
  lemma {:induction false} OneLineBytes(s: string, i: nat)
    requires OneLine(s)
    ensures !At(Utf8(s), CRLF, i)
  {
    BreakAt(Utf8(s), i);
    if s != "" {
      var first, rest := Utf8Char(s[0]), s[1..];
      var b := first + Utf8(rest);
      if i >= |first| {
        OneLineBytes(rest, i - |first|);
        BreakAt(Utf8(rest), i - |first|);
      } else if first[i] == 13 {
        LowBytes(s[0], i);
        if Utf8(rest) != [] && Utf8(rest)[0] == 10 {
          FirstByte(rest);
        }
      }
    }
  }

  /** A line ends at the first line break. */
  lemma FirstBreak(line: string, rest: seq<Byte>)
    requires OneLine(line)
    ensures IndexOf(Utf8(line) + (CRLF + rest), CRLF, 0) == Some(|Utf8(line)|)
  {
    var text := Utf8(line);
    var b := text + (CRLF + rest);
    BreakAt(b, |text|);
    forall i: nat | i < |text|
      ensures !At(b, CRLF, i)
    {
      OneLineBytes(line, i);
      BreakAt(text, i);
      BreakAt(b, i);
    }
    IndexOfIs(b, CRLF, 0, |text|);
  }

  lemma {:induction false} MarkedOneLine(seg: string, n: nat)
    requires OneLine(seg)
    ensures OneLine(seg + PrintMark(n))
  {
    var line := seg + PrintMark(n);
    NumberOfDecimal(n);
    forall i | 0 <= i < |line| - 1
      ensures !(line[i] == '\r' && line[i + 1] == '\n')
    {
      if i + 1 >= |seg| {
        assert line[i + 1] == PrintMark(n)[i + 1 - |seg|];
      }
    }
  }

  // ---------------------------------------------------------------- the framer undoes a printer

  /** A command as a client means it: a tag, a first stretch of line, then literals with the
      stretch of line that follows each. */
  datatype Piece = Piece(literal: seq<Byte>, seg: string)

  datatype Cmd = Cmd(tag: string, head: string, pieces: seq<Piece>)

  function PrintPieces(pieces: seq<Piece>): seq<Byte> {
    if pieces == [] then CRLF
    else Utf8(PrintMark(|pieces[0].literal|)) + CRLF
         + (pieces[0].literal + (Utf8(pieces[0].seg) + PrintPieces(pieces[1..])))
  }

  function Print(c: Cmd): seq<Byte> {
    Utf8(c.tag + " " + c.head) + PrintPieces(c.pieces)
  }

  function PrintAll(cmds: seq<Cmd>): seq<Byte> {
    if cmds == [] then [] else Print(cmds[0]) + PrintAll(cmds[1..])
  }

  /** The last stretch of a command's line. */
  function LastSeg(head: string, pieces: seq<Piece>): string {
    if pieces == [] then head else pieces[|pieces| - 1].seg
  }

  /** What a client may send: no space in the tag, no line break outside a literal, and a line
      that does not itself end in a literal's mark. */
  predicate Sendable(c: Cmd) {
    && IndexOf(c.tag, " ", 0).None? && OneLine(c.tag + " " + c.head)
    && (forall p | p in c.pieces :: OneLine(p.seg))
    && Mark(if c.pieces == [] then c.tag + " " + c.head else LastSeg(c.head, c.pieces)).None?
  }

  /** The events that the pieces come to, given the line so far and the literals so far. */
  function PieceEvents(tag: string, line: string, parts: seq<seq<Byte>>, pieces: seq<Piece>): seq<Event>
    decreases |pieces|
  {
    if pieces == [] then [Command(tag, line, parts)]
    else
      var more := line + ("{LIT" + Decimal(|parts|) + "}") + pieces[0].seg;
      [GoAhead] + PieceEvents(tag, more, parts + [pieces[0].literal], pieces[1..])
  }

  function Events(c: Cmd): seq<Event> {
    PieceEvents(c.tag, c.head, [], c.pieces)
  }

  function AllEvents(cmds: seq<Cmd>): seq<Event> {
    if cmds == [] then [] else Events(cmds[0]) + AllEvents(cmds[1..])
  }

  lemma LineStep(decode: Decoding, pending: Option<Pending>, line: string, rest: seq<Byte>)
    requires Decodes(decode) && OneLine(line) && !Awaits(State([], pending))
    ensures Step(decode, State(Utf8(line) + (CRLF + rest), pending))
         == Some((State(rest, AfterLine(pending, line).0), [AfterLine(pending, line).1]))
  {
    FirstBreak(line, rest);
    var text := Utf8(line);
    var b := text + (CRLF + rest);
    assert b[..|text|] == text && b[|text| + 2..] == rest;
    assert decode(text) == line;
  }

  lemma DrainStep(decode: Decoding, s: State, t: State, e: seq<Event>)
    requires Step(decode, s) == Some((t, e))
    ensures Drain(decode, s) == (Drain(decode, t).0, e + Drain(decode, t).1)
  {
  }

  /** A literal that is awaited and there. */
  lemma LiteralStep(decode: Decoding, p: Pending, literal: seq<Byte>, rest: seq<Byte>)
    requires p.need == Some(|literal|)
    ensures Step(decode, State(literal + rest, Some(p)))
         == Some((State(rest, Some(p.(parts := p.parts + [literal], need := None))), []))
  {
    assert (literal + rest)[..|literal|] == literal && (literal + rest)[|literal|..] == rest;
  }

  /** A line that announces a literal, then the literal. */
  lemma ReadLiteral(decode: Decoding, pending: Option<Pending>, seg: string, tag: string, line: string,
                    parts: seq<seq<Byte>>, literal: seq<Byte>, rest: seq<Byte>)
    requires Decodes(decode) && !Awaits(State([], pending)) && OneLine(seg)
    requires Extended(pending, seg + PrintMark(|literal|)) == Pending(tag, line + PrintMark(|literal|), None, parts)
    ensures var after := State(rest, Some(Pending(tag, line + LiteralName(|parts|), None, parts + [literal])));
      Drain(decode, State(Utf8(seg) + (Utf8(PrintMark(|literal|)) + CRLF + (literal + rest)), pending))
        == (Drain(decode, after).0, [GoAhead] + Drain(decode, after).1)
  {
    var mark := PrintMark(|literal|);
    var waiting := Pending(tag, line + LiteralName(|parts|), Some(|literal|), parts);
    var after := State(rest, Some(waiting.(parts := parts + [literal], need := None)));
    MarkedOneLine(seg, |literal|);
    Announced(pending, seg, tag, line, parts, |literal|);
    LineStep(decode, pending, seg + mark, literal + rest);
    Utf8Concat(seg, mark);
    Regroup(Utf8(seg), Utf8(mark), CRLF, literal + rest);
    DrainStep(decode, State(Utf8(seg + mark) + (CRLF + (literal + rest)), pending),
              State(literal + rest, Some(waiting)), [GoAhead]);
    LiteralStep(decode, waiting, literal, rest);
    DrainStep(decode, State(literal + rest, Some(waiting)), after, []);
    assert [] + Drain(decode, after).1 == Drain(decode, after).1;
  }

  lemma Regroup(a: seq<Byte>, b: seq<Byte>, c: seq<Byte>, d: seq<Byte>)
    ensures a + (b + c + d) == (a + b) + (c + d)
  {
  }

  lemma Announced(pending: Option<Pending>, seg: string, tag: string, line: string, parts: seq<seq<Byte>>, n: nat)
    requires Extended(pending, seg + PrintMark(n)) == Pending(tag, line + PrintMark(n), None, parts)
    ensures AfterLine(pending, seg + PrintMark(n))
         == (Some(Pending(tag, line + LiteralName(|parts|), Some(n), parts)), GoAhead)
  {
    MarkOfPrinted(seg, n);
    MarkOfPrinted(line, n);
    assert (line + PrintMark(n))[..|line|] == line;
  }

  /** The rest of a command as printed: its events, then whatever follows it. */
  lemma {:induction false} ReadPieces(decode: Decoding, pending: Option<Pending>, seg: string, tag: string,
                                      line: string, parts: seq<seq<Byte>>, pieces: seq<Piece>, rest: seq<Byte>)
    requires Decodes(decode)
    requires !Awaits(State([], pending)) && OneLine(seg) && Mark(LastSeg(seg, pieces)).None?
    requires forall p :: p in pieces ==> OneLine(p.seg)
    requires forall x :: Extended(pending, seg + x) == Pending(tag, line + x, None, parts)
    ensures Drain(decode, State(Utf8(seg) + (PrintPieces(pieces) + rest), pending))
         == (Drain(decode, State(rest, None)).0,
             PieceEvents(tag, line, parts, pieces) + Drain(decode, State(rest, None)).1)
    decreases |pieces|
  {
    if pieces == [] {
      assert seg + "" == seg && line + "" == line;
      LineStep(decode, pending, seg, rest);
      DrainStep(decode, State(Utf8(seg) + (CRLF + rest), pending), State(rest, None), [Command(tag, line, parts)]);
    } else {
      var first, more := pieces[0], pieces[1..];
      var next := Utf8(first.seg) + (PrintPieces(more) + rest);
      ReadLiteral(decode, pending, seg, tag, line, parts, first.literal, next);
      PrintedPiece(first, more, rest);
      var p := Pending(tag, line + LiteralName(|parts|), None, parts + [first.literal]);
      forall x
        ensures Extended(Some(p), first.seg + x) == Pending(tag, p.line + first.seg + x, None, p.parts)
      {
        Associative(p.line, first.seg, x);
      }
      assert LastSeg(first.seg, more) == LastSeg(seg, pieces);
      ReadPieces(decode, Some(p), first.seg, tag, p.line + first.seg, p.parts, more, rest);
      Associative([GoAhead], PieceEvents(tag, p.line + first.seg, p.parts, more), Drain(decode, State(rest, None)).1);
    }
  }

  lemma PrintedPiece(first: Piece, more: seq<Piece>, rest: seq<Byte>)
    ensures PrintPieces([first] + more) + rest
         == Utf8(PrintMark(|first.literal|)) + CRLF + (first.literal + (Utf8(first.seg) + (PrintPieces(more) + rest)))
  {
    var mark, tail := Utf8(PrintMark(|first.literal|)) + CRLF, Utf8(first.seg) + PrintPieces(more);
    assert ([first] + more)[1..] == more;
    Associative(mark, first.literal + tail, rest);
    Associative(first.literal, tail, rest);
    Associative(Utf8(first.seg), PrintPieces(more), rest);
  }

  /** A tag without a space is read back whole, whatever follows it on the line. */
  lemma TagRead(tag: string, head: string, x: string)
    requires IndexOf(tag, " ", 0).None?
    ensures Extended(None, tag + " " + head + x) == Pending(tag, head + x, None, [])
  {
    var line := tag + " " + head + x;
    assert line[|tag|..|tag| + 1] == " ";
    forall i: nat | i < |tag|
      ensures !At(line, " ", i)
    {
      assert !At(tag, " ", i) && tag[i..i + 1] == line[i..i + 1];
    }
    IndexOfIs(line, " ", 0, |tag|);
    assert line[..|tag|] == tag && line[|tag| + 1..] == head + x;
  }

  /** The framer undoes the printer: the commands of a printed stream come out as they were
      meant, with a go-ahead for each literal, and nothing is left over. */
  lemma {:induction false} ReadAll(decode: Decoding, cmds: seq<Cmd>)
    requires Decodes(decode) && forall c :: c in cmds ==> Sendable(c)
    ensures Feed(decode, State([], None), PrintAll(cmds)) == (State([], None), AllEvents(cmds))
  {
    assert More(State([], None), PrintAll(cmds)) == State(PrintAll(cmds), None);
    if cmds != [] {
      var c, rest := cmds[0], PrintAll(cmds[1..]);
      assert c in cmds;
      ReadAll(decode, cmds[1..]);
      assert More(State([], None), rest) == State(rest, None);
      forall x {
        TagRead(c.tag, c.head, x);
      }
      ReadPieces(decode, None, c.tag + " " + c.head, c.tag, c.head, [], c.pieces, rest);
      Associative(Utf8(c.tag + " " + c.head), PrintPieces(c.pieces), rest);
    }
  }

  // ---------------------------------------------------------------- the connection

  class Connection {
    var buf: seq<Byte>
    var pending: Option<Pending>
    var log: seq<Event>
    const decode: Decoding

    constructor (decode: Decoding)
      ensures buf == [] && pending == None && log == [] && this.decode == decode
    {
      buf, pending, log := [], None, [];
      this.decode := decode;
    }

    /** The loop body: one literal or one line, unless more bytes are needed. */
    method Turn() returns (moved: bool)
      modifies this
      ensures moved <==> Step(decode, State(old(buf), old(pending))).Some?
      ensures moved ==> State(buf, pending) == Step(decode, State(old(buf), old(pending))).value.0
      ensures moved ==> log == old(log) + Step(decode, State(old(buf), old(pending))).value.1
      ensures !moved ==> State(buf, pending) == State(old(buf), old(pending)) && log == old(log)
    {
      if pending.Some? && pending.value.need.Some? {
        var need := pending.value.need.value;
        if |buf| < need {
          return false;
        }
        pending := Some(pending.value.(parts := pending.value.parts + [buf[..need]], need := None));
        buf := buf[need..];
        return true;
      }
      var nl := IndexOf(buf, CRLF, 0);
      if nl.None? {
        return false;
      }
      var line := decode(buf[..nl.value]);
      buf := buf[nl.value + 2..];
      var lit := Mark(line);
      var p := Extended(pending, line);
      if lit.Some? {
        pending := Some(p.(line := MarkReplaced(p.line, |p.parts|), need := Some(lit.value.1)));
        log := log + [GoAhead];
      } else {
        pending := None;
        log := log + [Command(p.tag, p.line, p.parts)];
      }
      return true;
    }

    /** The data handler. */
    method Data(d: seq<Byte>)
      modifies this
      ensures State(buf, pending) == Feed(decode, State(old(buf), old(pending)), d).0
      ensures log == old(log) + Feed(decode, State(old(buf), old(pending)), d).1
    {
      ghost var start := More(State(buf, pending), d);
      ghost var said: seq<Event> := [];
      buf := buf + d;
      var moved := true;
      while moved
        invariant log == old(log) + said
        invariant Drain(decode, start).0 == Drain(decode, State(buf, pending)).0
        invariant Drain(decode, start).1 == said + Drain(decode, State(buf, pending)).1
        invariant !moved ==> Step(decode, State(buf, pending)).None?
        decreases moved, Work(State(buf, pending))
      {
        ghost var s := State(buf, pending);
        moved := Turn();
        if moved {
          ghost var e := Step(decode, s).value.1;
          StepProgress(decode, s);
          DrainStep(decode, s, State(buf, pending), e);
          Associative(old(log), said, e);
          Associative(said, e, Drain(decode, State(buf, pending)).1);
          said := said + e;
        }
      }
      assert said + [] == said;
    }
  }
}
