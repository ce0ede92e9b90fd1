/** Finding one sequence in another, as indexOf does. */
module Text {
  import opened Bytes

  predicate At<T(==)>(s: seq<T>, sub: seq<T>, i: nat) {
    i + |sub| <= |s| && s[i..i + |sub|] == sub
  }

  /** The first place at or after `from` where sub occurs. */
  function IndexOf<T(==)>(s: seq<T>, sub: seq<T>, from: nat): (r: Option<nat>)
    ensures r.None? ==> forall i: nat :: from <= i ==> !At(s, sub, i)
    ensures r.Some? ==> from <= r.value && At(s, sub, r.value)
    ensures r.Some? ==> forall i: nat :: from <= i < r.value ==> !At(s, sub, i)
    decreases |s| - from
  {
    if from + |sub| > |s| then None
    else if At(s, sub, from) then Some(from)
    else IndexOf(s, sub, from + 1)
  }

  /** What indexOf finds is the only place with nothing before it. */
  lemma IndexOfIs<T>(s: seq<T>, sub: seq<T>, from: nat, k: nat)
    requires from <= k && At(s, sub, k) && forall i: nat :: from <= i < k ==> !At(s, sub, i)
    ensures IndexOf(s, sub, from) == Some(k)
  {
  }

  /** An occurrence puts each element of sub in its place. */
  lemma AtEach<T>(s: seq<T>, sub: seq<T>, i: nat)
    ensures At(s, sub, i) <==> i + |sub| <= |s| && forall k :: 0 <= k < |sub| ==> s[i + k] == sub[k]
  {
  }

  /** The white space of a JavaScript regular expression. */
  predicate IsSpace(c: char) {
    || 9 <= c as int <= 13 || c as int in {32, 0xA0, 0x1680, 0x2028, 0x2029, 0x202F, 0x205F, 0x3000, 0xFEFF}
    || 0x2000 <= c as int <= 0x200A
  }

  /** One by one: the line and page breaks, the tab, the blanks of every width, the byte order mark. */
  lemma IsSpaceIs(c: char)
    ensures IsSpace(c) <==> c as int in {
      0x09, 0x0A, 0x0B, 0x0C, 0x0D, 0x20, 0xA0, 0x1680, 0x2000, 0x2001, 0x2002, 0x2003, 0x2004, 0x2005, 0x2006,
      0x2007, 0x2008, 0x2009, 0x200A, 0x2028, 0x2029, 0x202F, 0x205F, 0x3000, 0xFEFF}
  {
  }

  function TrimEnd(s: string): string {
    if s != "" && IsSpace(s[|s| - 1]) then TrimEnd(s[..|s| - 1]) else s
  }

  lemma {:induction false} TrimEndPrefix(s: string)
    ensures TrimEnd(s) <= s
  {
    if s != "" && IsSpace(s[|s| - 1]) {
      TrimEndPrefix(s[..|s| - 1]);
    }
  }

  /** How often sub occurs, as s.split(sub).length - 1 counts: left to right, not overlapping. */
  function Count(s: string, sub: string, from: nat): nat
    requires sub != ""
    decreases |s| - from
  {
    match IndexOf(s, sub, from)
    case None => 0
    case Some(k) => 1 + Count(s, sub, k + |sub|)
  }

  lemma NoneCounted(s: string, sub: string, from: nat)
    requires sub != ""
    ensures Count(s, sub, from) == 0 <==> forall i: nat :: from <= i ==> !At(s, sub, i)
  {
  }

  function TrimStart(s: string): string {
    if s != "" && IsSpace(s[0]) then TrimStart(s[1..]) else s
  }

  function Trim(s: string): string {
    TrimStart(TrimEnd(s))
  }

  /** s.replace(/\/+$/, '') */
  function TrimSlashes(s: string): string {
    if s != "" && s[|s| - 1] == '/' then TrimSlashes(s[..|s| - 1]) else s
  }

  /** Exactly the slashes at the end go. */
  lemma {:induction false} TrimSlashesIs(s: string, slashes: string)
    requires (s == "" || s[|s| - 1] != '/') && forall i :: 0 <= i < |slashes| ==> slashes[i] == '/'
    ensures TrimSlashes(s + slashes) == s
  {
    if slashes == "" {
      assert s + slashes == s;
    } else {
      var n := |slashes| - 1;
      TrimSlashesIs(s, slashes[..n]);
      assert (s + slashes)[..|s + slashes| - 1] == s + slashes[..n];
    }
  }

  /** Exactly the white space at either end goes. */
  lemma {:induction false} TrimEndIs(s: string, blanks: string)
    requires (s == "" || !IsSpace(s[|s| - 1])) && forall i :: 0 <= i < |blanks| ==> IsSpace(blanks[i])
    ensures TrimEnd(s + blanks) == s
  {
    if blanks == "" {
      assert s + blanks == s;
    } else {
      var n := |blanks| - 1;
      TrimEndIs(s, blanks[..n]);
      assert (s + blanks)[..|s + blanks| - 1] == s + blanks[..n];
    }
  }

  lemma {:induction false} TrimStartIs(blanks: string, s: string)
    requires (s == "" || !IsSpace(s[0])) && forall i :: 0 <= i < |blanks| ==> IsSpace(blanks[i])
    ensures TrimStart(blanks + s) == s
  {
    if blanks == "" {
      assert blanks + s == s;
    } else {
      TrimStartIs(blanks[1..], s);
      assert (blanks + s)[1..] == blanks[1..] + s;
    }
  }

  lemma TrimIs(before: string, s: string, after: string)
    requires s != "" && !IsSpace(s[0]) && !IsSpace(s[|s| - 1])
    requires forall i :: 0 <= i < |before| ==> IsSpace(before[i])
    requires forall i :: 0 <= i < |after| ==> IsSpace(after[i])
    ensures Trim(before + s + after) == s
  {
    TrimEndIs(before + s, after);
    TrimStartIs(before, s);
  }

  lemma {:induction false} TrimSlashesPrefix(s: string)
    ensures TrimSlashes(s) <= s
  {
    if s != "" && s[|s| - 1] == '/' {
      TrimSlashesPrefix(s[..|s| - 1]);
    }
  }
}
