/** The pieces of Python's `str` behaviour that the decoder and the result commands rely
    on: `split` and `join` with a one-character separator, `strip`, `replace`, `lower`
    (ASCII letters only), `startswith`/`endswith`, the substring test `in`, and `str` of
    an integer. */
module Text {

  /** Number of occurrences of `c` in `s`. */
  function Count(s: string, c: char): nat {
    if s == [] then 0 else (if s[0] == c then 1 else 0) + Count(s[1..], c)
  }

  /** `s.split(sep)` for a one-character separator: the pieces between consecutive
      separators, left to right. Never empty: `"".split(",") == [""]`. */
  function Split(s: string, sep: char): (r: seq<string>)
    ensures |r| == Count(s, sep) + 1
    ensures forall k :: 0 <= k < |r| ==> sep !in r[k]
  {
    if s == [] then [""]
    else
      var rest := Split(s[1..], sep);
      if s[0] == sep then [""] + rest
      else [[s[0]] + rest[0]] + rest[1..]
  }

  /** `sep.join(parts)` for a one-character separator. */
  function Join(parts: seq<string>, sep: char): string {
    if |parts| == 0 then ""
    else if |parts| == 1 then parts[0]
    else parts[0] + [sep] + Join(parts[1..], sep)
  }

  lemma JoinCons(c: char, p: string, ps: seq<string>, sep: char)
    ensures Join([[c] + p] + ps, sep) == [c] + Join([p] + ps, sep)
  {
    if |ps| > 0 {
      assert ([[c] + p] + ps)[1..] == ps;
      assert ([p] + ps)[1..] == ps;
    }
  }

  /** Joining the pieces of a split gives back the original text. */
  lemma {:induction false} JoinSplit(s: string, sep: char)
    ensures Join(Split(s, sep), sep) == s
  {
    if s != [] {
      var rest := Split(s[1..], sep);
      JoinSplit(s[1..], sep);
      if s[0] == sep {
        assert ([""] + rest)[1..] == rest;
        assert Join([""] + rest, sep) == "" + [sep] + Join(rest, sep);
        assert s == [s[0]] + s[1..];
      } else {
        assert rest == [rest[0]] + rest[1..];
        JoinCons(s[0], rest[0], rest[1..], sep);
        assert s == [s[0]] + s[1..];
      }
    }
  }

  /** A text without the separator splits into itself alone. */
  lemma {:induction false} SplitWithoutSeparator(s: string, sep: char)
    requires sep !in s
    ensures Split(s, sep) == [s]
  {
    if s != [] {
      SplitWithoutSeparator(s[1..], sep);
      assert s == [s[0]] + s[1..];
    }
  }

  /** Splitting `a + sep + b` splits `a` and `b` separately. */
  lemma {:induction false} SplitAppend(a: string, b: string, sep: char)
    ensures Split(a + [sep] + b, sep) == Split(a, sep) + Split(b, sep)
  {
    var s := a + [sep] + b;
    if a == [] {
      assert s[1..] == b;
    } else {
      assert s[0] == a[0];
      assert s[1..] == a[1..] + [sep] + b;
      SplitAppend(a[1..], b, sep);
      if a[0] != sep {
        PrependToFirst(a[0], Split(a[1..], sep), Split(b, sep));
      }
    }
  }

  /** `SplitAppend`'s step: a leading character joins the first piece. */
  lemma PrependToFirst(c: char, ra: seq<string>, rb: seq<string>)
    requires |ra| >= 1
    ensures [[c] + (ra + rb)[0]] + (ra + rb)[1..] == ([[c] + ra[0]] + ra[1..]) + rb
  {
    assert (ra + rb)[0] == ra[0];
    assert (ra + rb)[1..] == ra[1..] + rb;
  }

  /** Splitting the join of separator-free pieces gives back the pieces. */
  lemma {:induction false} SplitJoin(parts: seq<string>, sep: char)
    requires |parts| >= 1
    requires forall k :: 0 <= k < |parts| ==> sep !in parts[k]
    ensures Split(Join(parts, sep), sep) == parts
  {
    if |parts| == 1 {
      SplitWithoutSeparator(parts[0], sep);
    } else {
      SplitJoin(parts[1..], sep);
      SplitAppend(parts[0], Join(parts[1..], sep), sep);
      SplitWithoutSeparator(parts[0], sep);
      assert parts == [parts[0]] + parts[1..];
    }
  }

  /** The join starts with the first piece. */
  lemma JoinFirst(parts: seq<string>, sep: char)
    requires |parts| >= 1 && parts[0] != []
    ensures Join(parts, sep) != [] && Join(parts, sep)[0] == parts[0][0]
  {
  }

  /** The join ends with the last piece. */
  lemma {:induction false} JoinLast(parts: seq<string>, sep: char)
    requires |parts| >= 1 && parts[|parts| - 1] != []
    ensures var j, last := Join(parts, sep), parts[|parts| - 1];
            j != [] && j[|j| - 1] == last[|last| - 1]
  {
    if |parts| > 1 {
      JoinLast(parts[1..], sep);
    }
  }

  /** A character that is neither the separator nor in any piece is not in the join. */
  lemma {:induction false} JoinWithout(parts: seq<string>, sep: char, c: char)
    requires c != sep && forall k :: 0 <= k < |parts| ==> c !in parts[k]
    ensures c !in Join(parts, sep)
  {
    if |parts| > 1 {
      JoinWithout(parts[1..], sep, c);
    }
  }

  /** Appending separator-free text to `a` extends the last piece of its split. */
  lemma {:induction false} SplitExtend(a: string, b: string, sep: char)
    requires sep !in b
    ensures var p := Split(a, sep);
            Split(a + b, sep) == p[..|p| - 1] + [p[|p| - 1] + b]
  {
    if a == [] {
      SplitWithoutSeparator(b, sep);
      assert a + b == b;
    } else {
      assert (a + b)[1..] == a[1..] + b;
      assert (a + b)[0] == a[0];
      SplitExtend(a[1..], b, sep);
      var q, rest := Split(a[1..], sep), Split(a[1..] + b, sep);
      if a[0] == sep {
        ExtendAfterEmpty(q, rest, b);
      } else {
        ExtendAfterChar(a[0], q, rest, b);
      }
    }
  }

  /** `SplitExtend`'s step when the text starts with the separator. */
  lemma ExtendAfterEmpty(q: seq<string>, rest: seq<string>, b: string)
    requires |q| >= 1 && rest == q[..|q| - 1] + [q[|q| - 1] + b]
    ensures var p := [""] + q;
            [""] + rest == p[..|p| - 1] + [p[|p| - 1] + b]
  {
    var p := [""] + q;
    assert p[..|p| - 1] == [""] + q[..|q| - 1];
  }

  /** `SplitExtend`'s step when the text starts with another character. */
  lemma ExtendAfterChar(c: char, q: seq<string>, rest: seq<string>, b: string)
    requires |q| >= 1 && rest == q[..|q| - 1] + [q[|q| - 1] + b]
    ensures var p := [[c] + q[0]] + q[1..];
            [[c] + rest[0]] + rest[1..] == p[..|p| - 1] + [p[|p| - 1] + b]
  {
    var p := [[c] + q[0]] + q[1..];
    if |q| == 1 {
      assert rest == [q[0] + b];
      assert [c] + (q[0] + b) == p[0] + b;
    } else {
      assert rest[0] == q[0] && rest[1..] == q[1..|q| - 1] + [q[|q| - 1] + b];
      assert p[..|p| - 1] == [[c] + q[0]] + q[1..|q| - 1];
    }
  }

  /** `s.lstrip(chars)`: drops the longest prefix made of characters in `cs`. */
  function TrimLeft(s: string, cs: set<char>): (r: string)
    ensures |r| <= |s| && r == s[|s| - |r|..]
    ensures forall k :: 0 <= k < |s| - |r| ==> s[k] in cs
    ensures r != [] ==> r[0] !in cs
  {
    if s != [] && s[0] in cs then
      var t := TrimLeft(s[1..], cs);
      assert s[1..][|s| - 1 - |t|..] == s[|s| - |t|..];
      assert forall k :: 1 <= k < |s| - |t| ==> s[k] == s[1..][k - 1];
      t
    else s
  }

  /** `s.rstrip(chars)`: drops the longest suffix made of characters in `cs`. */
  function TrimRight(s: string, cs: set<char>): (r: string)
    ensures |r| <= |s| && r == s[..|r|]
    ensures forall k :: |r| <= k < |s| ==> s[k] in cs
    ensures r != [] ==> r[|r| - 1] !in cs
  {
    if s != [] && s[|s| - 1] in cs then
      var t := TrimRight(s[..|s| - 1], cs);
      assert s[..|s| - 1][..|t|] == s[..|t|];
      t
    else s
  }

  /** `r` is the slice `s[a..b]` of `s` with only characters of `cs` outside it. */
  ghost predicate StrippedFrom(r: string, s: string, cs: set<char>) {
    exists a, b :: 0 <= a <= b <= |s| && r == s[a..b]
                   && (forall k :: 0 <= k < a ==> s[k] in cs)
                   && (forall k :: b <= k < |s| ==> s[k] in cs)
  }

  /** Neither the first nor the last character is in `cs`. */
  predicate EndsOutside(r: string, cs: set<char>) {
    r != [] ==> r[0] !in cs && r[|r| - 1] !in cs
  }

  /** `s.strip(chars)`: `s` with the characters of `cs` dropped from both ends and nothing
      else; `StripCharsUnique` shows no other slice meets this. */
  function StripChars(s: string, cs: set<char>): (r: string)
    ensures StrippedFrom(r, s, cs) && EndsOutside(r, cs)
    ensures forall x :: x in r ==> x in s
  {
    var t := TrimLeft(s, cs);
    var r := TrimRight(t, cs);
    SuffixChars(s, t);
    PrefixChars(t, r);
    assert r != [] ==> r[0] == t[0];
    TrimmedSlice(s, cs, t, r);
    r
  }

  lemma TrimmedSlice(s: string, cs: set<char>, t: string, r: string)
    requires |t| <= |s| && t == s[|s| - |t|..] && forall k :: 0 <= k < |s| - |t| ==> s[k] in cs
    requires |r| <= |t| && r == t[..|r|] && forall k :: |r| <= k < |t| ==> t[k] in cs
    ensures StrippedFrom(r, s, cs)
  {
    var a := |s| - |t|;
    assert r == s[a..a + |r|];
    forall k | a + |r| <= k < |s|
      ensures s[k] in cs
    {
      assert s[k] == t[k - a];
    }
    StrippedAt(r, s, cs, a, a + |r|);
  }

  lemma StrippedAt(r: string, s: string, cs: set<char>, a: nat, b: nat)
    requires a <= b <= |s| && r == s[a..b]
    requires (forall k :: 0 <= k < a ==> s[k] in cs) && (forall k :: b <= k < |s| ==> s[k] in cs)
    ensures StrippedFrom(r, s, cs)
  {
  }

  /** A slice of `s` with only characters of `cs` around it and at neither of its own ends
      is what `strip` gives. */
  lemma StripCharsUnique(s: string, cs: set<char>, r: string)
    requires StrippedFrom(r, s, cs) && EndsOutside(r, cs)
    ensures StripChars(s, cs) == r
  {
    var a, b :| 0 <= a <= b <= |s| && r == s[a..b]
                && (forall k :: 0 <= k < a ==> s[k] in cs)
                && (forall k :: b <= k < |s| ==> s[k] in cs);
    if a == b {
      StripAllOf(s, cs, a);
    } else {
      StripAround(s, cs, r, a, b);
    }
  }

  lemma StripAllOf(s: string, cs: set<char>, a: nat)
    requires a <= |s| && (forall k :: 0 <= k < a ==> s[k] in cs)
    requires forall k :: a <= k < |s| ==> s[k] in cs
    ensures StripChars(s, cs) == []
  {
    TrimLeftAt(s, cs, |s|);
    assert TrimRight([], cs) == [];
  }

  lemma StripAround(s: string, cs: set<char>, r: string, a: nat, b: nat)
    requires a < b <= |s| && r == s[a..b] && EndsOutside(r, cs)
    requires (forall k :: 0 <= k < a ==> s[k] in cs) && (forall k :: b <= k < |s| ==> s[k] in cs)
    ensures TrimRight(TrimLeft(s, cs), cs) == r
  {
    TrimLeftAt(s, cs, a);
    TrimRightAfter(s, cs, r, a, b);
  }

  lemma TrimRightAfter(s: string, cs: set<char>, r: string, a: nat, b: nat)
    requires a < b <= |s| && r == s[a..b] && EndsOutside(r, cs)
    requires forall k :: b <= k < |s| ==> s[k] in cs
    ensures TrimRight(s[a..], cs) == r
  {
    AfterStart(s, cs, r, a, b);
    TrimRightAt(s[a..], cs, b - a);
  }

  /** The facts `TrimRightAt` needs about `s[a..]`. */
  lemma AfterStart(s: string, cs: set<char>, r: string, a: nat, b: nat)
    requires a < b <= |s| && r == s[a..b] && EndsOutside(r, cs)
    requires forall k :: b <= k < |s| ==> s[k] in cs
    ensures var t := s[a..];
            b - a <= |t| && (forall k :: b - a <= k < |t| ==> t[k] in cs)
            && t[b - a - 1] !in cs && t[..b - a] == r
  {
    var t := s[a..];
    assert t[b - a - 1] == r[|r| - 1];
    forall k | b - a <= k < |t|
      ensures t[k] in cs
    {
      assert t[k] == s[a + k];
    }
  }

  /** `lstrip` stops at the first character outside `cs`. */
  lemma {:induction false} TrimLeftAt(s: string, cs: set<char>, a: nat)
    requires a <= |s| && (forall k :: 0 <= k < a ==> s[k] in cs) && (a < |s| ==> s[a] !in cs)
    ensures TrimLeft(s, cs) == s[a..]
    decreases a
  {
    if a > 0 {
      assert s[1..][a - 1..] == s[a..];
      TrimLeftAt(s[1..], cs, a - 1);
    }
  }

  /** `rstrip` stops at the last character outside `cs`. */
  lemma {:induction false} TrimRightAt(t: string, cs: set<char>, b: nat)
    requires b <= |t| && (forall k :: b <= k < |t| ==> t[k] in cs) && (b > 0 ==> t[b - 1] !in cs)
    ensures TrimRight(t, cs) == t[..b]
    decreases |t| - b
  {
    if b < |t| {
      var u := t[..|t| - 1];
      assert u[..b] == t[..b];
      TrimRightAt(u, cs, b);
    }
  }

  lemma SuffixChars(s: string, t: string)
    requires |t| <= |s| && t == s[|s| - |t|..]
    ensures forall x :: x in t ==> x in s
  {
    forall x | x in t
      ensures x in s
    {
      var k :| 0 <= k < |t| && t[k] == x;
      assert s[|s| - |t| + k] == x;
    }
  }

  lemma PrefixChars(t: string, r: string)
    requires |r| <= |t| && r == t[..|r|]
    ensures forall x :: x in r ==> x in t
  {
    forall x | x in r
      ensures x in t
    {
      var k :| 0 <= k < |r| && r[k] == x;
      assert t[k] == x;
    }
  }

  /** The characters for which Python's `str.isspace` holds. */
  const Whitespace: set<char> := {
    ' ', '\t', '\n', '\r', '\U{B}', '\U{C}', '\U{1C}', '\U{1D}', '\U{1E}', '\U{1F}',
    '\U{85}', '\U{A0}', '\U{1680}', '\U{2000}', '\U{2001}', '\U{2002}', '\U{2003}',
    '\U{2004}', '\U{2005}', '\U{2006}', '\U{2007}', '\U{2008}', '\U{2009}', '\U{200A}',
    '\U{2028}', '\U{2029}', '\U{202F}', '\U{205F}', '\U{3000}'
  }

  /** `s.strip()`. */
  function Strip(s: string): string {
    StripChars(s, Whitespace)
  }

  /** `s.replace(c, '')`. */
  function RemoveChar(s: string, c: char): (r: string)
    ensures c !in r
    ensures c !in s ==> r == s
    ensures forall x :: x != c ==> multiset(r)[x] == multiset(s)[x]
  {
    if s == [] then []
    else
      assert s == [s[0]] + s[1..];
      (if s[0] == c then [] else [s[0]]) + RemoveChar(s[1..], c)
  }

  /** Removing a character from a concatenation removes it from both parts. */
  lemma {:induction false} RemoveCharAppend(a: string, b: string, c: char)
    ensures RemoveChar(a + b, c) == RemoveChar(a, c) + RemoveChar(b, c)
    decreases |a|
  {
    if a != [] {
      var ab := a + b;
      assert ab[0] == a[0] && ab[1..] == a[1..] + b;
      RemoveCharAppend(a[1..], b, c);
      var head := if a[0] == c then [] else [a[0]];
      assert RemoveChar(ab, c) == head + RemoveChar(a[1..] + b, c);
      assert RemoveChar(a, c) == head + RemoveChar(a[1..], c);
    } else {
      assert a + b == b;
    }
  }

  /** `s.replace(a, b)` for one-character `a` and `b`. */
  function ReplaceChar(s: string, a: char, b: char): (r: string)
    ensures |r| == |s|
  {
    seq(|s|, k requires 0 <= k < |s| => if s[k] == a then b else s[k])
  }

  predicate IsUpperAscii(c: char) {
    'A' <= c <= 'Z'
  }

  function LowerChar(c: char): char {
    if IsUpperAscii(c) then (c as int + 32) as char else c
  }

  /** `s.lower()` restricted to the ASCII letters. */
  function LowerAscii(s: string): (r: string)
    ensures |r| == |s|
  {
    seq(|s|, k requires 0 <= k < |s| => LowerChar(s[k]))
  }

  predicate StartsWith(s: string, prefix: string) {
    |prefix| <= |s| && s[..|prefix|] == prefix
  }

  predicate EndsWith(s: string, suffix: string) {
    |suffix| <= |s| && s[|s| - |suffix|..] == suffix
  }

  /** Python's `p in s` for two strings: `p` occurs somewhere in `s`. */
  predicate IsSubstring(p: string, s: string) {
    StartsWith(s, p) || (s != [] && IsSubstring(p, s[1..]))
  }

  function DigitChar(d: nat): char
    requires d < 10
  {
    ('0' as int + d) as char
  }

  /** `str(n)` for a non-negative integer: its decimal digits, no leading zero. */
  function NatToString(n: nat): (r: string)
    ensures |r| >= 1
    ensures forall k :: 0 <= k < |r| ==> '0' <= r[k] <= '9'
  {
    if n < 10 then [DigitChar(n)] else NatToString(n / 10) + [DigitChar(n % 10)]
  }

  /** `str(i)` for an integer. */
  function IntToString(i: int): string {
    if i < 0 then "-" + NatToString(-i) else NatToString(i)
  }

  /** The number that a string of decimal digits denotes. */
  function DigitsValue(s: string): nat
    requires forall k :: 0 <= k < |s| ==> '0' <= s[k] <= '9'
  {
    if s == [] then 0 else DigitsValue(s[..|s| - 1]) * 10 + (s[|s| - 1] as int - '0' as int)
  }

  /** Reading back the digits that `str` writes gives the number again. */
  lemma {:induction false} NatToStringValue(n: nat)
    ensures DigitsValue(NatToString(n)) == n
  {
    if n >= 10 {
      var q, d := n / 10, n % 10;
      assert n == q * 10 + d;
      NatToStringValue(q);
      var r := NatToString(n);
      assert r == NatToString(q) + [DigitChar(d)];
      assert r[..|r| - 1] == NatToString(q);
    }
  }
}
