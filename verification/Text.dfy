/** The operations of Go's package strings that the modelled code uses, on
    sequences of characters, with the laws the proofs need. */
module Text {
  import opened Wrappers

  /** unicode.IsSpace. */
  predicate IsSpace(c: char) {
    c in "\t\n\U{0b}\U{0c}\r \U{85}\U{a0}\U{1680}\U{2028}\U{2029}\U{202f}\U{205f}\U{3000}"
    || '\U{2000}' <= c <= '\U{200a}'
  }

  lemma SpaceIsSpace()
    ensures IsSpace(' ')
  {
  }

  /** Unicode's white space: U+0009 to U+000D, U+0020, U+0085, U+00A0, U+1680,
      U+2000 to U+200A, U+2028, U+2029, U+202F, U+205F and U+3000. */
  lemma SpacesAre(c: char)
    ensures IsSpace(c) <==> var x := c as int;
              9 <= x <= 13 || x == 32 || x == 0x85 || x == 0xA0 || x == 0x1680 || 0x2000 <= x <= 0x200A
              || x == 0x2028 || x == 0x2029 || x == 0x202F || x == 0x205F || x == 0x3000
  {
  }

  function TrimLeft(s: string): (t: string)
    ensures |t| <= |s|
  {
    if s != [] && IsSpace(s[0]) then TrimLeft(s[1..]) else s
  }

  function TrimRight(s: string): (t: string)
    ensures |t| <= |s|
  {
    if s != [] && IsSpace(s[|s| - 1]) then TrimRight(s[..|s| - 1]) else s
  }

  function TrimSpace(s: string): string { TrimRight(TrimLeft(s)) }

  predicate Trimmed(s: string) { s == [] || (!IsSpace(s[0]) && !IsSpace(s[|s| - 1])) }

  predicate HasPrefix(s: string, p: string) { p <= s }

  predicate HasSuffix(s: string, p: string) { |p| <= |s| && s[|s| - |p|..] == p }

  function TrimPrefix(s: string, p: string): (t: string)
    ensures s == p + t || (s == t && forall u :: s != p + u)
  {
    if HasPrefix(s, p) then s[|p|..] else s
  }

  function TrimSuffix(s: string, p: string): (t: string)
    ensures s == t + p || (s == t && forall u :: s != u + p)
  {
    if HasSuffix(s, p) then s[..|s| - |p|] else s
  }

  function LastIndex(s: string, c: char): (i: int)
    ensures -1 <= i < |s|
    ensures i >= 0 ==> s[i] == c
  {
    if s == [] then -1
    else if s[|s| - 1] == c then |s| - 1
    else LastIndex(s[..|s| - 1], c)
  }

  /** What follows the last occurrence holds none. */
  lemma {:induction false} AfterLast(s: string, c: char)
    ensures c !in s[LastIndex(s, c) + 1..]
  {
    if s != [] && s[|s| - 1] != c {
      var t := s[..|s| - 1];
      AfterLast(t, c);
      hide *;
      NotInAppend(t[LastIndex(t, c) + 1..], s[|s| - 1], c);
      assert s[LastIndex(t, c) + 1..] == t[LastIndex(t, c) + 1..] + [s[|s| - 1]];
    }
  }

  lemma {:induction false} LastIndexIs(s: string, c: char, i: nat)
    requires i < |s| && s[i] == c && c !in s[i + 1..]
    ensures LastIndex(s, c) == i
  {
    if i < |s| - 1 {
      var t := s[..|s| - 1];
      assert s[i + 1..] == t[i + 1..] + [s[|s| - 1]];
      LastIndexIs(t, c, i);
    }
  }

  lemma NotInAppend(a: string, x: char, c: char)
    requires c !in a && x != c
    ensures c !in a + [x]
  {
  }

  /** Split on a one-character separator: never empty. */
  function Split(s: string, sep: char): (parts: seq<string>)
    ensures parts != []
  {
    if s == [] then [""]
    else
      var rest := Split(s[1..], sep);
      if s[0] == sep then [""] + rest else [[s[0]] + rest[0]] + rest[1..]
  }

  function Join(parts: seq<string>, sep: char): string {
    if parts == [] then ""
    else if |parts| == 1 then parts[0]
    else parts[0] + [sep] + Join(parts[1..], sep)
  }

  predicate Free(parts: seq<string>, sep: char) { forall p :: p in parts ==> sep !in p }

  lemma {:induction false} SplitParts(s: string, sep: char)
    ensures Free(Split(s, sep), sep) && Join(Split(s, sep), sep) == s
  {
    if s != [] {
      SplitParts(s[1..], sep);
      var rest := Split(s[1..], sep);
      assert Split(s, sep) == if s[0] == sep then [""] + rest else [[s[0]] + rest[0]] + rest[1..];
      hide Split, Join;
      if s[0] == sep {
        JoinCons("", rest, sep);
      } else {
        JoinHead(s[0], rest, sep);
        assert rest[0] in rest && forall p :: p in rest[1..] ==> p in rest;
      }
    }
  }

  lemma JoinCons(p: string, rest: seq<string>, sep: char)
    requires rest != []
    ensures Join([p] + rest, sep) == p + [sep] + Join(rest, sep)
  {
  }

  lemma JoinHead(c: char, rest: seq<string>, sep: char)
    requires rest != []
    ensures Join([[c] + rest[0]] + rest[1..], sep) == [c] + Join(rest, sep)
  {
  }

  /** Splitting distributes over a separator. */
  lemma {:induction false} SplitConcat(a: string, b: string, sep: char)
    ensures Split(a + [sep] + b, sep) == Split(a, sep) + Split(b, sep)
  {
    var s := a + [sep] + b;
    if a == [] {
      assert s == [sep] + b && s[1..] == b;
    } else {
      assert s[1..] == a[1..] + [sep] + b;
      SplitConcat(a[1..], b, sep);
    }
  }

  lemma {:induction false} SplitSingle(s: string, sep: char)
    requires sep !in s
    ensures Split(s, sep) == [s]
  {
    if s != [] {
      SplitSingle(s[1..], sep);
      assert [s[0]] + s[1..] == s;
    }
  }

  lemma {:induction false} SplitJoin(parts: seq<string>, sep: char)
    requires parts != [] && Free(parts, sep)
    ensures Split(Join(parts, sep), sep) == parts
  {
    hide Split;
    assert parts[0] in parts;
    SplitSingle(parts[0], sep);
    if |parts| > 1 {
      assert forall p :: p in parts[1..] ==> p in parts;
      SplitJoin(parts[1..], sep);
      SplitConcat(parts[0], Join(parts[1..], sep), sep);
      assert parts == [parts[0]] + parts[1..];
    }
  }

  lemma {:induction false} JoinAppend(a: seq<string>, b: seq<string>, sep: char)
    requires a != [] && b != []
    ensures Join(a + b, sep) == Join(a, sep) + [sep] + Join(b, sep)
  {
    if |a| == 1 {
      assert (a + b)[1..] == b;
    } else {
      assert (a + b)[1..] == a[1..] + b;
      JoinAppend(a[1..], b, sep);
    }
  }

  lemma TrimmedIsFixed(s: string)
    requires Trimmed(s)
    ensures TrimSpace(s) == s
  {
  }

  lemma {:induction false} TrimLeftStops(s: string)
    ensures TrimLeft(s) == [] || !IsSpace(TrimLeft(s)[0])
    ensures HasSuffix(s, TrimLeft(s))
  {
    if s != [] && IsSpace(s[0]) {
      TrimLeftStops(s[1..]);
    }
  }

  lemma {:induction false} TrimRightStops(s: string)
    ensures TrimRight(s) == [] || !IsSpace(TrimRight(s)[|TrimRight(s)| - 1])
    ensures TrimRight(s) <= s
  {
    if s != [] && IsSpace(s[|s| - 1]) {
      TrimRightStops(s[..|s| - 1]);
    }
  }

  lemma TrimSpaceTrims(s: string)
    ensures Trimmed(TrimSpace(s))
    ensures forall c :: c in TrimSpace(s) ==> c in s
  {
    TrimLeftStops(s);
    TrimRightStops(TrimLeft(s));
    hide IsSpace, TrimLeft, TrimRight;
    SuffixMembers(s, TrimLeft(s));
    PrefixMembers(TrimLeft(s), TrimSpace(s));
  }

  predicate AllSpace(s: string) { forall c :: c in s ==> IsSpace(c) }

  lemma {:induction false} TrimLeftDrops(s: string) returns (a: string)
    ensures AllSpace(a) && s == a + TrimLeft(s)
  {
    hide IsSpace;
    a := "";
    if s != [] && IsSpace(s[0]) {
      var rest := TrimLeftDrops(s[1..]);
      a := [s[0]] + rest;
    }
  }

  lemma {:induction false} TrimRightDrops(s: string) returns (b: string)
    ensures AllSpace(b) && s == TrimRight(s) + b
  {
    hide IsSpace;
    b := "";
    if s != [] && IsSpace(s[|s| - 1]) {
      var front := TrimRightDrops(s[..|s| - 1]);
      b := front + [s[|s| - 1]];
    }
  }

  /** TrimSpace takes away white space at both ends, all of it, and nothing else. */
  lemma TrimSpaceExactly(s: string)
    ensures Trimmed(TrimSpace(s))
    ensures exists a, b :: AllSpace(a) && AllSpace(b) && s == a + TrimSpace(s) + b
  {
    TrimSpaceTrims(s);
    var a := TrimLeftDrops(s);
    var b := TrimRightDrops(TrimLeft(s));
    assert TrimSpace(s) == TrimRight(TrimLeft(s));
    hide *;
    assert s == a + TrimSpace(s) + b;
  }

  lemma PrefixMembers(s: string, t: string)
    requires t <= s
    ensures forall c :: c in t ==> c in s
  {
  }

  lemma SuffixMembers(s: string, t: string)
    requires HasSuffix(s, t)
    ensures forall c :: c in t ==> c in s
  {
  }

  function LowerChar(c: char): char { if 'A' <= c <= 'Z' then c - 'A' + 'a' else c }

  /** ToLower on ASCII; other letters stay as they are. */
  function ToLower(s: string): (t: string)
    ensures |t| == |s|
    ensures forall i :: 0 <= i < |s| ==> t[i] == if 'A' <= s[i] <= 'Z' then (s[i] as int + 32) as char else s[i]
  {
    seq(|s|, i requires 0 <= i < |s| => LowerChar(s[i]))
  }

  // ----- Decimal numbers -----

  function Digit(d: nat): char
    requires d < 10
  {
    '0' + d as char
  }

  function Decimal(n: nat): (s: string)
    ensures s != [] && forall c :: c in s ==> '0' <= c <= '9'
  {
    if n < 10 then [Digit(n)] else Decimal(n / 10) + [Digit(n % 10)]
  }

  /** The number that digits spell. */
  function Value(s: string): int {
    if s == "" then 0 else Value(s[..|s| - 1]) * 10 + (s[|s| - 1] as int - '0' as int)
  }

  /** What is written is the number, without leading zeros. */
  lemma {:induction false} DecimalIsRead(n: nat)
    ensures Value(Decimal(n)) == n && (n > 0 ==> Decimal(n)[0] != '0')
  {
    if n >= 10 {
      var s := Decimal(n);
      DecimalIsRead(n / 10);
      assert s[..|s| - 1] == Decimal(n / 10);
    } else {
      assert [Digit(n)][..0] == "";
    }
  }

  /** Different numbers are written differently. */
  lemma DecimalIsInjective(m: nat, n: nat)
    requires Decimal(m) == Decimal(n)
    ensures m == n
  {
    DecimalIsRead(m);
    DecimalIsRead(n);
  }
}
