/** Bytes, big-endian words and UTF-8. */
module Bytes {
  datatype Option<+T> = None | Some(value: T) {
    predicate IsFailure() { None? }
    function PropagateFailure<U>(): Option<U> requires None? { None }
    function Extract(): T requires Some? { value }
  }

  lemma Associative<T>(a: seq<T>, b: seq<T>, c: seq<T>)
    ensures (a + b) + c == a + (b + c)
  {
  }

  type Byte = x: int | 0 <= x < 256

  const WORD := 0x1_0000_0000

  /** Four bytes, most significant first. */
  function U32(n: nat): (b: seq<Byte>)
    requires n < WORD
    ensures |b| == 4
  {
    [n / 0x100_0000, n / 0x1_0000 % 256, n / 256 % 256, n % 256]
  }

  function Word(a: nat, b: nat, c: nat, d: nat): nat {
    ((a * 256 + b) * 256 + c) * 256 + d
  }

  /** Buffer.readUInt32BE, which throws past the end. */
  function ReadU32(b: seq<Byte>, at: nat): (n: Option<nat>) {
    if at + 4 <= |b| then Some(Word(b[at], b[at + 1], b[at + 2], b[at + 3])) else None
  }

  lemma WordOfU32(n: nat)
    requires n < WORD
    ensures Word(U32(n)[0], U32(n)[1], U32(n)[2], U32(n)[3]) == n
  {
    var three, two := n / 256, n / 0x1_0000;
    assert n == three * 256 + n % 256 && three / 256 == two;
    assert three == two * 256 + three % 256 && two / 256 == n / 0x100_0000;
    assert two == n / 0x100_0000 * 256 + two % 256;
  }

  /** A word put in front is read there. */
  lemma ReadBackU32(n: nat, rest: seq<Byte>)
    requires n < WORD
    ensures ReadU32(U32(n) + rest, 0) == Some(n)
  {
    WordOfU32(n);
    HeadWord(U32(n), rest);
  }

  lemma HeadWord(head: seq<Byte>, rest: seq<Byte>)
    requires |head| == 4
    ensures ReadU32(head + rest, 0) == Some(Word(head[0], head[1], head[2], head[3]))
  {
  }

  /** Buffer.subarray, which stops at the end. */
  function Subarray(b: seq<Byte>, from: nat, to: nat): seq<Byte> {
    var f, t := if from <= |b| then from else |b|, if to <= |b| then to else |b|;
    if f <= t then b[f..t] else []
  }

  function Utf8Char(c: char): seq<Byte> {
    var n := c as int;
    if n < 0x80 then [n]
    else if n < 0x800 then [0xC0 + n / 64, 0x80 + n % 64]
    else if n < 0x1_0000 then [0xE0 + n / 4096, 0x80 + n / 64 % 64, 0x80 + n % 64]
    else [0xF0 + n / 262144, 0x80 + n / 4096 % 64, 0x80 + n / 64 % 64, 0x80 + n % 64]
  }

  /** The shortest form, as section 3 of RFC 3629 has it: the bytes a character takes, the bits its
      first byte starts with, and the two every other byte does. */
  lemma Utf8Form(c: char)
    ensures var n, b := c as int, Utf8Char(c);
      && |b| == (if n < 0x80 then 1 else if n < 0x800 then 2 else if n < 0x1_0000 then 3 else 4)
      && (|b| == 1 ==> b[0] < 0x80) && (|b| == 2 ==> b[0] / 32 == 6) && (|b| == 3 ==> b[0] / 16 == 14)
      && (|b| == 4 ==> b[0] / 8 == 30) && forall i :: 1 <= i < |b| ==> b[i] / 64 == 2
  {
  }

  function Utf8(s: string): seq<Byte> {
    if s == [] then [] else Utf8Char(s[0]) + Utf8(s[1..])
  }

  lemma {:induction false} Utf8Concat(a: string, b: string)
    ensures Utf8(a + b) == Utf8(a) + Utf8(b)
  {
    if a == [] {
      assert a + b == b;
    } else {
      Utf8Concat(a[1..], b);
      assert (a + b)[1..] == a[1..] + b;
      Associative(Utf8Char(a[0]), Utf8(a[1..]), Utf8(b));
    }
  }

  // ---------------------------------------------------------------- and back

  function Point(n: int): char {
    if 0 <= n < 0xD800 || 0xE000 <= n < 0x11_0000 then n as char else 0xFFFD as char
  }

  /** How many bytes the character takes that starts with this one. */
  function Length(lead: Byte): nat {
    if lead < 0x80 then 1 else if lead < 0xE0 then 2 else if lead < 0xF0 then 3 else 4
  }

  function Two(a: int, b: int): int {
    (a - 0xC0) * 64 + b - 0x80
  }

  function Three(a: int, b: int, c: int): int {
    ((a - 0xE0) * 64 + b - 0x80) * 64 + c - 0x80
  }

  function Four(a: int, b: int, c: int, d: int): int {
    (((a - 0xF0) * 64 + b - 0x80) * 64 + c - 0x80) * 64 + d - 0x80
  }

  function Character(b: seq<Byte>): char
    requires b != [] && |b| >= Length(b[0])
  {
    if b[0] < 0x80 then Point(b[0])
    else if b[0] < 0xE0 then Point(Two(b[0], b[1]))
    else if b[0] < 0xF0 then Point(Three(b[0], b[1], b[2]))
    else Point(Four(b[0], b[1], b[2], b[3]))
  }

  lemma Digits64(n: nat)
    ensures n / 64 / 64 == n / 4096 && n / 64 / 64 / 64 == n / 262144
    ensures (n / 64) * 64 + n % 64 == n
    ensures (n / 4096) * 64 + n / 64 % 64 == n / 64
    ensures (n / 262144) * 64 + n / 4096 % 64 == n / 4096
  {
  }

  lemma CharacterBack(c: char)
    ensures Length(Utf8Char(c)[0]) == |Utf8Char(c)| && Character(Utf8Char(c)) == c
  {
    var n := c as int;
    Digits64(n);
    if n < 0x80 {
    } else if n < 0x800 {
      assert Two(0xC0 + n / 64, 0x80 + n % 64) == n;
    } else if n < 0x1_0000 {
      assert Three(0xE0 + n / 4096, 0x80 + n / 64 % 64, 0x80 + n % 64) == n;
    } else {
      assert Four(0xF0 + n / 262144, 0x80 + n / 4096 % 64, 0x80 + n / 64 % 64, 0x80 + n % 64) == n;
    }
  }

  /** A reader of UTF-8; what is cut short reads as the replacement character. */
  function ReadUtf8(b: seq<Byte>): string {
    if b == [] then ""
    else if |b| < Length(b[0]) then [0xFFFD as char]
    else [Character(b)] + ReadUtf8(b[Length(b[0])..])
  }

  lemma CharacterAhead(head: seq<Byte>, rest: seq<Byte>)
    requires head != [] && |head| == Length(head[0])
    ensures Length((head + rest)[0]) == |head| && Character(head + rest) == Character(head)
    ensures (head + rest)[|head|..] == rest
  {
  }

  /** Text written as UTF-8 is read back, every character of it. */
  lemma {:induction false} ReadUtf8Back(s: string)
    ensures ReadUtf8(Utf8(s)) == s
  {
    if s != "" {
      CharacterBack(s[0]);
      CharacterAhead(Utf8Char(s[0]), Utf8(s[1..]));
      ReadUtf8Back(s[1..]);
    }
  }
}
