/**
 The string operations of the Go standard library that the router and its client use,
 on `seq<char>`: strings.Join, strings.Contains, strings.ToLower (ASCII) and fmt's %d.
 */
module Text {

  predicate IsDigit(c: char) { '0' <= c <= '9' }

  predicate IsLetter(c: char) { 'a' <= c <= 'z' || 'A' <= c <= 'Z' }

  /** True if `s` is empty or its first character fails `p`. */
  predicate StopsAt(s: string, p: char -> bool) {
    s == "" || !p(s[0])
  }

  // ----- strings.Join -----

  function Join(parts: seq<string>, sep: string): string {
    if |parts| == 0 then ""
    else if |parts| == 1 then parts[0]
    else parts[0] + sep + Join(parts[1..], sep)
  }

  // ----- %d and its inverse -----

  function Digit(d: nat): char
    requires d < 10
  {
    '0' + d as char
  }

  function Decimal(n: nat): (s: string)
    ensures |s| > 0 && forall i | 0 <= i < |s| :: IsDigit(s[i])
  {
    if n < 10 then [Digit(n)] else Decimal(n / 10) + [Digit(n % 10)]
  }

  /** %d on a Go int. */
  function FormatInt(n: int): string {
    if n < 0 then "-" + Decimal(-n) else Decimal(n)
  }

  function Number(s: string): nat
    requires forall i | 0 <= i < |s| :: IsDigit(s[i])
  {
    if s == "" then
      0
    else
      assert IsDigit(s[|s| - 1]);
      Number(s[..|s| - 1]) * 10 + (s[|s| - 1] as int - '0' as int)
  }

  lemma {:induction false} NumberOfDecimal(n: nat)
    ensures Number(Decimal(n)) == n
  {
    if n < 10 {
      assert Decimal(n)[..0] == "";
    } else {
      NumberOfDecimal(n / 10);
      assert Decimal(n)[..|Decimal(n)| - 1] == Decimal(n / 10);
    }
  }

  lemma {:induction false} DecimalIsCanonical(n: nat)
    ensures Decimal(n)[0] == '0' ==> n == 0
  {
    if n >= 10 {
      DecimalIsCanonical(n / 10);
      assert Decimal(n)[0] == Decimal(n / 10)[0];
    }
  }

  /** %d prints the digits of the number, without leading zeros, after a sign if it is negative. */
  lemma FormatIntIsRead(n: int)
    ensures var text := FormatInt(n);
            var digits := if n < 0 then text[1..] else text;
            && (n < 0 ==> text[0] == '-')
            && digits != "" && (forall i | 0 <= i < |digits| :: IsDigit(digits[i]))
            && Number(digits) == (if n < 0 then -n else n)
            && (digits[0] == '0' ==> n == 0)
  {
    var m := if n < 0 then -n else n;
    NumberOfDecimal(m);
    DecimalIsCanonical(m);
    hide Decimal, Number;
    assert n < 0 ==> FormatInt(n)[1..] == Decimal(m);
  }

  /** The length of the longest prefix of `s` whose characters satisfy `p`. */
  function Span(s: string, p: char -> bool): (n: nat)
    ensures n <= |s|
    ensures forall i | 0 <= i < n :: p(s[i])
    ensures n < |s| ==> !p(s[n])
  {
    if s == "" || !p(s[0]) then 0 else 1 + Span(s[1..], p)
  }

  lemma {:induction false} SpanOfPrefix(s: string, rest: string, p: char -> bool)
    requires forall i | 0 <= i < |s| :: p(s[i])
    requires StopsAt(rest, p)
    ensures Span(s + rest, p) == |s|
  {
    if s == "" {
      assert s + rest == rest;
    } else {
      assert (s + rest)[1..] == s[1..] + rest;
      SpanOfPrefix(s[1..], rest, p);
    }
  }

  lemma {:induction false} SpanExtends(s: string, rest: string, p: char -> bool)
    requires Span(s, p) < |s|
    ensures Span(s + rest, p) == Span(s, p)
  {
    assert (s + rest)[0] == s[0];
    if p(s[0]) {
      assert (s + rest)[1..] == s[1..] + rest;
      SpanExtends(s[1..], rest, p);
    }
  }

  // ----- strings.ToLower on ASCII -----

  function LowerChar(c: char): char {
    if 'A' <= c <= 'Z' then 'a' + (c - 'A') else c
  }

  function ToLower(s: string): (r: string)
    ensures |r| == |s| && forall i | 0 <= i < |s| :: r[i] == LowerChar(s[i])
  {
    seq(|s|, i requires 0 <= i < |s| => LowerChar(s[i]))
  }

  // ----- strings.ToUpper, as far as its result is ASCII, and strings.TrimSpace -----

  const LONG_S: char := '\U{17F}'

  const DOTLESS_I: char := '\U{131}'

  /** Beyond ASCII, two characters have an ASCII letter as their upper case. */
  function UpperChar(c: char): char {
    if 'a' <= c <= 'z' then 'A' + (c - 'a')
    else if c == LONG_S then 'S'
    else if c == DOTLESS_I then 'I'
    else c
  }

  function ToUpper(s: string): (r: string)
    ensures |r| == |s| && forall i | 0 <= i < |s| :: r[i] == UpperChar(s[i])
  {
    seq(|s|, i requires 0 <= i < |s| => UpperChar(s[i]))
  }

  /** unicode.IsSpace */
  predicate IsBlank(c: char) {
    var n := c as int;
    || n == 0x20 || 0x09 <= n <= 0x0D || n == 0x85 || n == 0xA0
    || n == 0x1680 || 0x2000 <= n <= 0x200A || n == 0x2028 || n == 0x2029
    || n == 0x202F || n == 0x205F || n == 0x3000
  }

  const WHITE_SPACE: set<char> :=
    {'\t', '\n', '\U{B}', '\U{C}', '\r', ' ', '\U{85}', '\U{A0}', '\U{1680}', '\U{2000}', '\U{2001}', '\U{2002}',
     '\U{2003}', '\U{2004}', '\U{2005}', '\U{2006}', '\U{2007}', '\U{2008}', '\U{2009}', '\U{200A}', '\U{2028}',
     '\U{2029}', '\U{202F}', '\U{205F}', '\U{3000}'}

  lemma BlankIsWhite(c: char)
    ensures IsBlank(c) <==> c in WHITE_SPACE
  {
  }

  function TrimRight(s: string): (r: string)
    ensures r <= s
  {
    if s != "" && IsBlank(s[|s| - 1]) then TrimRight(s[..|s| - 1]) else s
  }

  function TrimSpace(s: string): string {
    TrimRight(s[Span(s, IsBlank)..])
  }

  // ----- strings.Contains -----

  predicate OccursAt(s: string, part: string, i: nat) {
    i + |part| <= |s| && s[i..i + |part|] == part
  }

  predicate Contains(s: string, part: string) {
    exists i: nat | i <= |s| :: OccursAt(s, part, i)
  }

  lemma ContainsInContext(before: string, part: string, after: string)
    ensures Contains(before + part + after, part)
  {
    assert OccursAt(before + part + after, part, |before|);
  }

  lemma OccursAfter(before: string, s: string, part: string, i: nat)
    ensures OccursAt(before + s, part, |before| + i) <==> OccursAt(s, part, i)
  {
    if i + |part| <= |s| {
      assert (before + s)[|before| + i..|before| + i + |part|] == s[i..i + |part|];
    }
  }

  lemma OccursBefore(s: string, after: string, part: string, i: nat)
    requires i + |part| <= |s|
    ensures OccursAt(s + after, part, i) <==> OccursAt(s, part, i)
  {
    assert (s + after)[i..i + |part|] == s[i..i + |part|];
  }

  lemma OccursHas(s: string, part: string, i: nat, k: nat)
    requires OccursAt(s, part, i) && k < |part|
    ensures s[i + k] == part[k]
  {
    assert s[i..i + |part|][k] == s[i + k];
  }

  lemma ContainsLeft(left: string, right: string, part: string)
    requires Contains(left, part)
    ensures Contains(left + right, part)
  {
    var i: nat :| i <= |left| && OccursAt(left, part, i);
    OccursBefore(left, right, part, i);
  }

  lemma ContainsRight(left: string, right: string, part: string)
    requires Contains(right, part)
    ensures Contains(left + right, part)
  {
    var i: nat :| i <= |right| && OccursAt(right, part, i);
    OccursAfter(left, right, part, i);
  }

  /** A separator character that the part does not have splits the search. */
  lemma ContainsAcross(left: string, sep: char, right: string, part: string)
    requires sep !in part
    ensures Contains(left + [sep] + right, part) <==> Contains(left, part) || Contains(right, part)
  {
    var head := left + [sep];
    var s := head + right;
    if Contains(left, part) {
      ContainsLeft(left, [sep], part);
      ContainsLeft(head, right, part);
    }
    if Contains(right, part) {
      ContainsRight(head, right, part);
    }
    if Contains(s, part) {
      var i: nat :| i <= |s| && OccursAt(s, part, i);
      hide Contains, OccursAt;
      SeparatorIsNotCrossed(left, sep, right, part, i);
    }
  }

  lemma SeparatorIsNotCrossed(left: string, sep: char, right: string, part: string, i: nat)
    requires sep !in part && i <= |left + [sep] + right| && OccursAt(left + [sep] + right, part, i)
    ensures Contains(left, part) || Contains(right, part)
  {
    var head := left + [sep];
    if i + |part| <= |left| {
      assert head + right == left + ([sep] + right);
      OccursBefore(left, [sep] + right, part, i);
    } else if i >= |head| {
      OccursAfter(head, right, part, i - |head|);
    } else {
      OccursHas(head + right, part, i, |left| - i);
    }
  }

  lemma LacksCharacter(s: string, part: string, k: nat)
    requires k < |part| && part[k] !in s
    ensures !Contains(s, part)
  {
    forall i: nat | i <= |s| ensures !OccursAt(s, part, i) {
      if i + |part| <= |s| {
        assert s[i..i + |part|][k] == s[i + k];
      }
    }
  }

  lemma ContainsLowered(s: string, part: string)
    requires ToLower(part) == part && Contains(s, part)
    ensures Contains(ToLower(s), part)
  {
    var i: nat :| i <= |s| && OccursAt(s, part, i);
    forall j | 0 <= j < |part| ensures ToLower(s)[i + j] == part[j] {
      assert s[i..i + |part|][j] == s[i + j];
      assert ToLower(part)[j] == LowerChar(part[j]);
    }
    assert ToLower(s)[i..i + |part|] == part;
    assert OccursAt(ToLower(s), part, i);
  }

  lemma LacksPair(s: string, part: string, k: nat)
    requires k + 1 < |part|
    requires forall i | 0 <= i < |s| - 1 && s[i] == part[k] :: s[i + 1] != part[k + 1]
    ensures !Contains(s, part)
  {
    forall i: nat | i <= |s| ensures !OccursAt(s, part, i) {
      if i + |part| <= |s| {
        assert s[i..i + |part|][k] == s[i + k];
        assert s[i..i + |part|][k + 1] == s[i + k + 1];
      }
    }
  }
}
