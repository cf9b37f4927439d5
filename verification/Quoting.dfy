/**
 fmt's %q on a string (strconv.Quote), and which phrases its output contains: an escape can end in
 the first letter of a phrase.
 */
module Quoting {
  import opened Text
  import opened Wrappers

  function HexDigit(d: nat): char
    requires d < 16
  {
    if d < 10 then '0' + d as char else 'a' + (d - 10) as char
  }

  predicate IsPrintable(c: char) { ' ' <= c <= '~' }

  predicate IsHexLetter(c: char) { '0' <= c <= '9' || 'a' <= c <= 'f' || c == 'x' || c == 'u' || c == 'U' }

  predicate IsHexEscape(e: string) {
    |e| > 1 && e[0] == '\\' && forall i | 0 < i < |e| :: IsHexLetter(e[i])
  }

  /** A character beyond ASCII is printed as it is or as a hexadecimal escape. */
  ghost predicate IsRunePrinter(rune: char -> string) {
    forall c | c as int >= 128 :: rune(c) == [c] || IsHexEscape(rune(c))
  }

  function QuoteChar(c: char, rune: char -> string): string {
    var n := c as int;
    if c == '"' || c == '\\' then ['\\', c]
    else if IsPrintable(c) then [c]
    else if n == 7 then ['\\', 'a']
    else if n == 8 then ['\\', 'b']
    else if n == 9 then ['\\', 't']
    else if n == 10 then ['\\', 'n']
    else if n == 11 then ['\\', 'v']
    else if n == 12 then ['\\', 'f']
    else if n == 13 then ['\\', 'r']
    else if n < 128 then ['\\', 'x', HexDigit(n / 16), HexDigit(n % 16)]
    else rune(c)
  }

  function QuoteBody(s: string, rune: char -> string): string {
    if s == "" then "" else QuoteChar(s[0], rune) + QuoteBody(s[1..], rune)
  }

  /** %q */
  function Quote(s: string, rune: char -> string): string { "\"" + QuoteBody(s, rune) + "\"" }

  // ----- phrases in the quoted text -----

  predicate IsPlainChar(c: char) { IsPrintable(c) && c != '"' && c != '\\' }

  /** Begins with a letter that no escape but that of the line feed ends in. */
  predicate IsPhrase(p: string) {
    p != "" && (p[0] == 'i' || p[0] == 'l' || p[0] == 'n') && forall i | 0 <= i < |p| :: IsPlainChar(p[i])
  }

  lemma EscapeShape(c: char, rune: char -> string, first: char)
    requires IsRunePrinter(rune) && QuoteChar(c, rune) != [c]
    requires first == 'i' || first == 'l' || first == 'n'
    ensures !IsPlainChar(c)
    ensures var e := QuoteChar(c, rune);
            && |e| > 1 && e[0] == '\\'
            && (if c == '\n' then e == ['\\', 'n'] else forall i | 0 < i < |e| :: e[i] != first)
  {
  }

  lemma PrefixStep(c: char, s: string, p: string)
    requires p != ""
    ensures p <= [c] + s <==> p[0] == c && p[1..] <= s
  {
    if p <= [c] + s {
      assert ([c] + s)[..|p|][1..] == s[..|p| - 1];
    }
  }

  lemma ContainsStep(c: char, s: string, p: string)
    requires p != ""
    ensures Contains([c] + s, p) <==> p <= [c] + s || Contains(s, p)
  {
    if p <= [c] + s { assert OccursAt([c] + s, p, 0); }
    if Contains(s, p) { ContainsRight([c], s, p); }
    if i: nat :| i <= |[c] + s| && OccursAt([c] + s, p, i) {
      if i > 0 { OccursAfter([c], s, p, i - 1); }
    }
  }

  lemma {:induction false} SkipOver(skipped: string, s: string, p: string)
    requires p != "" && forall i | 0 <= i < |skipped| :: skipped[i] != p[0]
    ensures Contains(skipped + s, p) <==> Contains(s, p)
  {
    if skipped == "" {
      assert skipped + s == s;
    } else {
      var rest := skipped[1..] + s;
      assert skipped + s == [skipped[0]] + rest;
      ContainsStep(skipped[0], rest, p);
      PrefixStep(skipped[0], rest, p);
      hide Contains;
      SkipOver(skipped[1..], s, p);
    }
  }

  lemma ChunkStarts(e: string, body: string, c: char, s: string, p: string)
    requires p != "" && (p[1..] <= body <==> p[1..] <= s)
    requires e == [c] || (e != "" && e[0] != p[0] && c != p[0])
    ensures p <= e + body <==> p <= [c] + s
  {
    PrefixStep(c, s, p);
    PrefixStep(e[0], e[1..] + body, p);
    assert e + body == [e[0]] + (e[1..] + body);
    assert e == [c] ==> e[1..] + body == body;
  }

  lemma {:induction false} BodyStarts(s: string, rune: char -> string, p: string)
    requires IsRunePrinter(rune) && forall i | 0 <= i < |p| :: IsPlainChar(p[i])
    ensures p <= QuoteBody(s, rune) <==> p <= s
  {
    if p != "" && s != "" {
      var c, e := s[0], QuoteChar(s[0], rune);
      if e != [c] { EscapeShape(c, rune, 'n'); }
      assert s == [c] + s[1..] && p[0] != '\\';
      BodyStarts(s[1..], rune, p[1..]);
      hide QuoteChar, IsPlainChar, IsRunePrinter;
      ChunkStarts(e, QuoteBody(s[1..], rune), c, s[1..], p);
    }
  }

  /** The phrase is in the name, or all of it but its first letter follows a line feed there. */
  predicate NameHas(name: string, p: string)
    requires p != ""
  {
    Contains(name, p) || (p[0] == 'n' && Contains(name, "\n" + p[1..]))
  }

  lemma {:induction false} QuoteBodyHas(s: string, rune: char -> string, p: string)
    requires IsRunePrinter(rune) && IsPhrase(p)
    ensures Contains(QuoteBody(s, rune), p) <==> NameHas(s, p)
  {
    var fed := "\n" + p[1..];
    if s == "" {
      assert !Contains(s, p) && !Contains(s, fed);
    } else {
      var c, e, body := s[0], QuoteChar(s[0], rune), QuoteBody(s[1..], rune);
      assert s == [c] + s[1..];
      ContainsStep(c, s[1..], p);
      ContainsStep(c, s[1..], fed);
      PrefixStep(c, s[1..], p);
      PrefixStep(c, s[1..], fed);
      assert fed[1..] == p[1..];
      QuoteBodyHas(s[1..], rune, p);
      CharHas(c, s[1..], rune, p);
      hide Contains, QuoteChar;
    }
  }

  /** One more character in front. */
  lemma CharHas(c: char, s: string, rune: char -> string, p: string)
    requires IsRunePrinter(rune) && IsPhrase(p)
    ensures Contains(QuoteChar(c, rune) + QuoteBody(s, rune), p)
       <==> Contains(QuoteBody(s, rune), p) || (p[1..] <= s && (p[0] == c || (p[0] == 'n' && c == '\n')))
  {
    var e, body := QuoteChar(c, rune), QuoteBody(s, rune);
    BodyStarts(s, rune, p[1..]);
    if e == [c] {
      ContainsStep(c, body, p);
      PrefixStep(c, body, p);
    } else {
      EscapeShape(c, rune, p[0]);
      hide QuoteChar, QuoteBody, Contains;
      if c == '\n' {
        assert e + body == [e[0]] + ([e[1]] + body);
        ContainsStep(e[0], [e[1]] + body, p);
        PrefixStep(e[0], [e[1]] + body, p);
        ContainsStep(e[1], body, p);
        PrefixStep(e[1], body, p);
      } else {
        SkipOver(e, body, p);
      }
    }
  }

  // ----- the quoted text is read back -----

  function HexValue(c: char): Option<nat> {
    if '0' <= c <= '9' then Some(c as int - '0' as int)
    else if 'a' <= c <= 'f' then Some(c as int - 'a' as int + 10)
    else None
  }

  /** What a character after a backslash stands for. */
  function Unescaped(c: char): Option<char> {
    match c
    case '"' => Some('"')
    case '\\' => Some('\\')
    case 'a' => Some(7 as char)
    case 'b' => Some(8 as char)
    case 't' => Some('\t')
    case 'n' => Some('\n')
    case 'v' => Some(11 as char)
    case 'f' => Some(12 as char)
    case 'r' => Some('\r')
    case _ => None
  }

  function Extend(c: char, r: Option<(string, string)>): Option<(string, string)> {
    match r
    case None => None
    case Some((s, rest)) => Some(([c] + s, rest))
  }

  /** Reads a quoted string whose opening quote has been consumed, with the escapes of Go's string literals. */
  function ReadQuotedBody(t: string): Option<(string, string)> {
    if t == "" then None
    else if t[0] == '"' then Some(("", t[1..]))
    else if t[0] != '\\' then Extend(t[0], ReadQuotedBody(t[1..]))
    else if |t| < 2 then None
    else if Unescaped(t[1]).Some? then Extend(Unescaped(t[1]).value, ReadQuotedBody(t[2..]))
    else if |t| < 4 || t[1] != 'x' then None
    else match (HexValue(t[2]), HexValue(t[3]))
      case (Some(high), Some(low)) => Extend((16 * high + low) as char, ReadQuotedBody(t[4..]))
      case _ => None
  }

  lemma CharIsReadBack(c: char, rune: char -> string, rest: string)
    requires c as int < 128 || rune(c) == [c]
    ensures ReadQuotedBody(QuoteChar(c, rune) + rest) == Extend(c, ReadQuotedBody(rest))
  {
    var e := QuoteChar(c, rune);
    var t := e + rest;
    assert |e| <= 4 && t[|e|..] == rest;
    if |e| == 4 {
      assert t[0] == '\\' && t[1] == 'x' && t[2] == e[2] && t[3] == e[3];
    } else if |e| == 2 {
      assert t[0] == '\\' && t[1] == e[1];
    } else {
      assert t[0] == c;
    }
  }

  /** A character prints as itself, a control character with a letter of its own as two, others as they are given. */
  lemma QuotedForm(c: char, rune: char -> string)
    ensures IsPlainChar(c) ==> QuoteChar(c, rune) == [c]
    ensures 7 <= c as int <= 13 ==> |QuoteChar(c, rune)| == 2
    ensures c as int >= 128 ==> QuoteChar(c, rune) == rune(c)
  {
  }

  /** Quoting loses nothing: a reader of Go's string literals gets the string back. */
  lemma {:induction false} QuoteIsReadBack(s: string, rune: char -> string, rest: string)
    requires forall i | 0 <= i < |s| :: s[i] as int < 128 || rune(s[i]) == [s[i]]
    ensures ReadQuotedBody(QuoteBody(s, rune) + "\"" + rest) == Some((s, rest))
  {
    if s == "" {
      assert ("" + "\"" + rest)[1..] == rest;
    } else {
      var more := QuoteBody(s[1..], rune) + "\"" + rest;
      assert QuoteBody(s, rune) + "\"" + rest == QuoteChar(s[0], rune) + more;
      QuoteIsReadBack(s[1..], rune, rest);
      CharIsReadBack(s[0], rune, more);
      hide ReadQuotedBody, QuoteChar, QuoteBody;
      assert [s[0]] + s[1..] == s;
    }
  }
}
