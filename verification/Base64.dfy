/** Base 64 (section 4 of RFC 4648), and the reader Node's Buffer gives it. */
module Base64 {
  import opened Bytes

  type Sextet = x: int | 0 <= x < 64

  function Digit(v: Sextet): char {
    if v < 26 then ('A' as int + v) as char
    else if v < 52 then ('a' as int + v - 26) as char
    else if v < 62 then ('0' as int + v - 52) as char
    else if v == 62 then '+' else '/'
  }

  /** Both alphabets of RFC 4648 are read. */
  function Value(c: char): Option<Sextet> {
    if 'A' <= c <= 'Z' then Some(c as int - 'A' as int)
    else if 'a' <= c <= 'z' then Some(c as int - 'a' as int + 26)
    else if '0' <= c <= '9' then Some(c as int - '0' as int + 52)
    else if c == '+' || c == '-' then Some(62)
    else if c == '/' || c == '_' then Some(63)
    else None
  }

  /** What is read as a digit: a printed one is read as its value, the two of the other alphabet as
      those they stand for, and nothing else is one. */
  lemma DigitsRead(c: char)
    ensures forall v: Sextet :: c == Digit(v) ==> Value(c) == Some(v)
    ensures c == '-' ==> Value(c) == Some(62)
    ensures c == '_' ==> Value(c) == Some(63)
    ensures Value(c).Some? ==> c in {'-', '_'} || exists v: Sextet :: c == Digit(v)
  {
    if Value(c).Some? && c !in {'-', '_'} {
      assert c == Digit(Value(c).value);
    }
  }

  /** Three bytes as four sextets, and back. */
  function First(x: nat): Sextet requires x < 256 { x / 4 }
  function Second(x: nat, y: nat): Sextet requires x < 256 && y < 256 { x % 4 * 16 + y / 16 }
  function Third(y: nat, z: nat): Sextet requires y < 256 && z < 256 { y % 16 * 4 + z / 64 }
  function Fourth(z: nat): Sextet requires z < 256 { z % 64 }

  function High(u: nat, v: nat): Byte requires u < 64 && v < 64 { u * 4 + v / 16 }
  function Middle(v: nat, w: nat): Byte requires v < 64 && w < 64 { v % 16 * 16 + w / 4 }
  function Low(w: nat, x: nat): Byte requires w < 64 && x < 64 { w % 4 * 64 + x }

  lemma ThreeBytes(x: Byte, y: Byte, z: Byte)
    ensures High(First(x), Second(x, y)) == x
    ensures Middle(Second(x, y), Third(y, z)) == y
    ensures Low(Third(y, z), Fourth(z)) == z
  {
  }

  lemma FirstByte(x: Byte, y: Byte)
    ensures High(First(x), Second(x, y)) == x
  {
  }

  function Encode(b: seq<Byte>): string {
    if b == [] then ""
    else if |b| == 1 then [Digit(First(b[0])), Digit(Second(b[0], 0)), '=', '=']
    else if |b| == 2 then [Digit(First(b[0])), Digit(Second(b[0], b[1])), Digit(Third(b[1], 0)), '=']
    else [Digit(First(b[0])), Digit(Second(b[0], b[1])), Digit(Third(b[1], b[2])), Digit(Fourth(b[2]))]
         + Encode(b[3..])
  }

  /** The digits up to the padding; anything else in the text is skipped. */
  function Sextets(s: string): seq<Sextet> {
    if s == [] || s[0] == '=' then []
    else match Value(s[0])
      case Some(v) => [v] + Sextets(s[1..])
      case None => Sextets(s[1..])
  }

  function Regroup(v: seq<Sextet>): seq<Byte> {
    if |v| < 2 then []
    else if |v| == 2 then [High(v[0], v[1])]
    else if |v| == 3 then [High(v[0], v[1]), Middle(v[1], v[2])]
    else [High(v[0], v[1]), Middle(v[1], v[2]), Low(v[2], v[3])] + Regroup(v[4..])
  }

  /** Buffer.from(text, 'base64'). */
  function Decode(s: string): seq<Byte> {
    Regroup(Sextets(s))
  }

  lemma ValueOfDigit(v: Sextet)
    ensures Value(Digit(v)) == Some(v) && Digit(v) != '='
  {
  }

  lemma {:induction false} SextetsOfDigit(v: Sextet, rest: string)
    ensures Sextets([Digit(v)] + rest) == [v] + Sextets(rest)
  {
    ValueOfDigit(v);
    assert ([Digit(v)] + rest)[1..] == rest;
  }

  lemma {:induction false} SextetsOfDigits(v: seq<Sextet>, rest: string)
    ensures Sextets(Digits(v) + rest) == v + Sextets(rest)
  {
    if v == [] {
      assert Digits(v) + rest == rest;
    } else {
      SextetsOfDigits(v[1..], rest);
      SextetsOfDigit(v[0], Digits(v[1..]) + rest);
      DigitsFrom(v);
      Associative([Digit(v[0])], Digits(v[1..]), rest);
      Associative([v[0]], v[1..], Sextets(rest));
      assert v == [v[0]] + v[1..];
    }
  }

  lemma DigitsFrom(v: seq<Sextet>)
    requires v != []
    ensures Digits(v) == [Digit(v[0])] + Digits(v[1..])
  {
  }

  function Digits(v: seq<Sextet>): string {
    seq(|v|, i requires 0 <= i < |v| => Digit(v[i]))
  }

  /** Reading back what was written gives the same bytes. */
  lemma {:induction false} DecodeEncode(b: seq<Byte>)
    ensures Decode(Encode(b)) == b
  {
    if b == [] {
    } else if |b| == 1 {
      DecodeEncodeOne(b[0]);
      assert b == [b[0]];
    } else if |b| == 2 {
      DecodeEncodeTwo(b[0], b[1]);
      assert b == [b[0], b[1]];
    } else {
      var v := [First(b[0]), Second(b[0], b[1]), Third(b[1], b[2]), Fourth(b[2])];
      assert Encode(b) == Digits(v) + Encode(b[3..]);
      SextetsOfDigits(v, Encode(b[3..]));
      DecodeEncode(b[3..]);
      assert (v + Sextets(Encode(b[3..])))[4..] == Sextets(Encode(b[3..]));
      ThreeBytes(b[0], b[1], b[2]);
    }
  }

  lemma DecodeEncodeOne(x: Byte)
    ensures Decode(Encode([x])) == [x]
  {
    var v := [First(x), Second(x, 0)];
    FirstByte(x, 0);
    assert Encode([x]) == Digits(v) + "==";
    SextetsOfDigits(v, "==");
    assert Sextets(Encode([x])) == v;
  }

  lemma DecodeEncodeTwo(x: Byte, y: Byte)
    ensures Decode(Encode([x, y])) == [x, y]
  {
    var v := [First(x), Second(x, y), Third(y, 0)];
    assert Encode([x, y]) == Digits(v) + ['='];
    SextetsOfDigits(v, ['=']);
    assert Sextets(Encode([x, y])) == v;
    ThreeBytes(x, y, 0);
  }

  predicate IsPrinted(c: char) {
    c == '=' || Value(c).Some?
  }

  /** Four characters for every three bytes begun. */
  lemma {:induction false} EncodedLength(b: seq<Byte>)
    ensures |Encode(b)| == (|b| + 2) / 3 * 4
  {
    if |b| >= 3 {
      EncodedLength(b[3..]);
    }
  }

  /** Base 64 is written in its own alphabet only: no blanks, no dashes. */
  lemma {:induction false} EncodeAlphabet(b: seq<Byte>, i: nat)
    requires i < |Encode(b)|
    ensures IsPrinted(Encode(b)[i]) && Encode(b)[i] != '-'
  {
    if |b| >= 3 && i >= 4 {
      EncodeAlphabet(b[3..], i - 4);
    }
  }
}
