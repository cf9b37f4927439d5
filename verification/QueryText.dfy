/**
 Which queries ExecuteQuery runs for their rows, and the text it sends (internal/service/postgres.go).
 */
module QueryText {
  import opened Text
  import opened SqlRoundTrip

  // ----- which queries return rows -----

  predicate StartsRead(upper: string) {
    || "SELECT" <= upper
    || "SHOW" <= upper
    || "WITH" <= upper
    || "TABLE" <= upper
    || "VALUES" <= upper
  }

  predicate IsSelect(query: string) { StartsRead(ToUpper(TrimSpace(query))) }

  lemma {:induction false} TrimRightOfLower(s: string)
    ensures TrimRight(ToLower(s)) == ToLower(TrimRight(s))
  {
    if s != "" && IsBlank(s[|s| - 1]) {
      assert ToLower(s)[..|s| - 1] == ToLower(s[..|s| - 1]);
      TrimRightOfLower(s[..|s| - 1]);
    }
  }

  lemma {:induction false} SpanOfLower(s: string)
    ensures Span(ToLower(s), IsBlank) == Span(s, IsBlank)
  {
    if s != "" {
      assert ToLower(s)[1..] == ToLower(s[1..]);
      SpanOfLower(s[1..]);
    }
  }

  lemma LeadingBlank(blank: char, s: string)
    requires IsBlank(blank)
    ensures TrimSpace([blank] + s) == TrimSpace(s)
  {
    assert ([blank] + s)[1..] == s;
    var n := Span(s, IsBlank);
    assert ([blank] + s)[n + 1..] == s[n..];
  }

  lemma TrimSpaceOfLower(s: string)
    ensures TrimSpace(ToLower(s)) == ToLower(TrimSpace(s))
  {
    var n := Span(s, IsBlank);
    SpanOfLower(s);
    assert ToLower(s)[n..] == ToLower(s[n..]);
    TrimRightOfLower(s[n..]);
  }

  /** Neither letter case nor leading white space decides whether a query is run for its rows. */
  lemma ClassificationIgnoresCaseAndBlanks(query: string, blank: char)
    ensures IsSelect(ToLower(query)) == IsSelect(query)
    ensures IsBlank(blank) ==> IsSelect([blank] + query) == IsSelect(query)
  {
    TrimSpaceOfLower(query);
    assert ToUpper(ToLower(TrimSpace(query))) == ToUpper(TrimSpace(query)) by { hide TrimSpace; }
    hide IsBlank, ToUpper, ToLower, TrimSpace, StartsRead;
    if IsBlank(blank) { LeadingBlank(blank, query); }
  }

  // ----- the classification, spelled out -----

  ghost predicate AllWhite(s: string) { forall i | 0 <= i < |s| :: s[i] in WHITE_SPACE }

  /** The letter in either case; the long s and the dotless i have S and I as their upper case. */
  ghost predicate IsLetterOf(c: char, capital: char) {
    || c == capital
    || c as int == capital as int + 32
    || (capital == 'S' && c == '\U{17F}')
    || (capital == 'I' && c == '\U{131}')
  }

  ghost predicate Spells(word: string, keyword: string) {
    |word| == |keyword| && forall i | 0 <= i < |word| :: IsLetterOf(word[i], keyword[i])
  }

  lemma SpellsWhenUpper(word: string, keyword: string)
    requires forall i | 0 <= i < |keyword| :: 'A' <= keyword[i] <= 'Z'
    ensures Spells(word, keyword) <==> ToUpper(word) == keyword
  {
    forall i | 0 <= i < |word| && i < |keyword|
      ensures IsLetterOf(word[i], keyword[i]) <==> ToUpper(word)[i] == keyword[i]
    {
    }
    hide IsLetterOf, UpperChar;
    if ToUpper(word) == keyword { assert |word| == |keyword|; }
    if Spells(word, keyword) { assert forall i | 0 <= i < |word| :: ToUpper(word)[i] == keyword[i]; }
  }

  const READING: set<string> := {"SELECT", "SHOW", "WITH", "TABLE", "VALUES"}

  ghost predicate BeginsReading(query: string, blanks: string, word: string, keyword: string, rest: string) {
    query == blanks + word + rest && AllWhite(blanks) && keyword in READING && Spells(word, keyword)
  }

  lemma StartsReadWhen(upper: string)
    ensures StartsRead(upper) <==> exists keyword :: keyword in READING && keyword <= upper
  {
    assert "SELECT" in READING && "SHOW" in READING && "WITH" in READING && "TABLE" in READING && "VALUES" in READING;
  }

  lemma ReadingIsCapital(keyword: string)
    requires keyword in READING
    ensures keyword != "" && forall i | 0 <= i < |keyword| :: 'A' <= keyword[i] <= 'Z'
  {
  }

  lemma {:induction false} TrimRightKeeps(s: string) returns (right: string)
    ensures s == TrimRight(s) + right && forall i | 0 <= i < |right| :: IsBlank(right[i])
    ensures TrimRight(s) != "" ==> !IsBlank(TrimRight(s)[|TrimRight(s)| - 1])
  {
    if s != "" && IsBlank(s[|s| - 1]) {
      var r := TrimRightKeeps(s[..|s| - 1]);
      right := r + [s[|s| - 1]];
    } else {
      right := "";
    }
  }

  lemma BlanksAreWhite(s: string)
    requires forall i | 0 <= i < |s| :: IsBlank(s[i])
    ensures AllWhite(s)
  {
    forall i | 0 <= i < |s| ensures s[i] in WHITE_SPACE { BlankIsWhite(s[i]); }
  }

  /** The text that is sent: the query without the white space around it. */
  lemma SentText(query: string) returns (left: string, right: string)
    ensures query == left + TrimSpace(query) + right && AllWhite(left) && AllWhite(right)
    ensures var sent := TrimSpace(query);
            sent != "" ==> sent[0] !in WHITE_SPACE && sent[|sent| - 1] !in WHITE_SPACE
  {
    hide AllWhite, IsBlank, TrimRight, Span;
    var n := Span(query, IsBlank);
    left := query[..n];
    right := TrimRightKeeps(query[n..]);
    BlanksAreWhite(left);
    BlanksAreWhite(right);
    var sent := TrimSpace(query);
    if sent != "" {
      assert sent[0] == query[n];
      BlankIsWhite(sent[0]);
      BlankIsWhite(sent[|sent| - 1]);
    }
  }

  /** A query is run for its rows exactly if it begins, after white space, with one of five keywords in any case. */
  lemma ReadingExactlyWhen(query: string)
    ensures IsSelect(query) <==> exists blanks, word, keyword, rest :: BeginsReading(query, blanks, word, keyword, rest)
  {
    if IsSelect(query) { ReadingBegins(query); }
    if blanks, word, keyword, rest :| BeginsReading(query, blanks, word, keyword, rest) {
      BeginningReads(query, blanks, word, keyword, rest);
    }
  }

  lemma KeywordOfSent(query: string) returns (keyword: string)
    requires IsSelect(query)
    ensures keyword in READING && keyword <= ToUpper(TrimSpace(query))
  {
    hide ToUpper, TrimSpace;
    StartsReadWhen(ToUpper(TrimSpace(query)));
    keyword :| keyword in READING && keyword <= ToUpper(TrimSpace(query));
  }

  lemma ReadingBegins(query: string)
    requires IsSelect(query)
    ensures exists blanks, word, keyword, rest :: BeginsReading(query, blanks, word, keyword, rest)
  {
    hide *;
    var left, right := SentText(query);
    var keyword := KeywordOfSent(query);
    SentBegins(left, TrimSpace(query), right, keyword);
  }

  lemma SentBegins(left: string, sent: string, right: string, keyword: string)
    requires AllWhite(left) && keyword in READING && keyword <= ToUpper(sent)
    ensures BeginsReading(left + sent + right, left, sent[..|keyword|], keyword, sent[|keyword|..] + right)
  {
    ReadingIsCapital(keyword);
    var word := sent[..|keyword|];
    assert ToUpper(word) == ToUpper(sent)[..|keyword|];
    hide ToUpper, AllWhite, Spells;
    SpellsWhenUpper(word, keyword);
    assert left + sent + right == left + word + (sent[|keyword|..] + right);
  }

  lemma SentStartsWith(blanks: string, word: string, rest: string)
    requires AllWhite(blanks) && word != "" && forall i | 0 <= i < |word| :: !IsBlank(word[i])
    ensures word <= TrimSpace(blanks + word + rest)
  {
    forall i | 0 <= i < |blanks| ensures IsBlank(blanks[i]) { BlankIsWhite(blanks[i]); }
    var more := word + rest;
    hide IsBlank;
    assert blanks + word + rest == blanks + more;
    SpanOfPrefix(blanks, more, IsBlank);
    assert (blanks + more)[|blanks|..] == more;
    TrimKeepsWord(word, rest);
  }

  lemma NoBlankInWord(word: string, keyword: string)
    requires keyword in READING && Spells(word, keyword)
    ensures word != "" && forall i | 0 <= i < |word| :: !IsBlank(word[i])
  {
    ReadingIsCapital(keyword);
    forall i | 0 <= i < |word| ensures !IsBlank(word[i]) { assert IsLetterOf(word[i], keyword[i]); }
  }

  lemma UpperOfPrefix(word: string, s: string)
    requires word <= s
    ensures ToUpper(word) <= ToUpper(s)
  {
  }

  lemma BeginningReads(query: string, blanks: string, word: string, keyword: string, rest: string)
    requires BeginsReading(query, blanks, word, keyword, rest)
    ensures IsSelect(query)
  {
    hide Spells, AllWhite, IsBlank, ToUpper, TrimSpace, StartsRead;
    NoBlankInWord(word, keyword);
    SentStartsWith(blanks, word, rest);
    UpperOfPrefix(word, TrimSpace(query));
    ReadingIsCapital(keyword);
    SpellsWhenUpper(word, keyword);
    StartsReadWhen(ToUpper(TrimSpace(query)));
  }

  lemma {:induction false} TrimKeepsWord(word: string, rest: string)
    requires forall i | 0 <= i < |word| :: !IsBlank(word[i])
    ensures word <= TrimRight(word + rest)
    decreases |rest|
  {
    if rest == "" {
      assert word + rest == word;
    } else {
      var n := |rest| - 1;
      assert (word + rest)[..|word + rest| - 1] == word + rest[..n];
      TrimKeepsWord(word, rest[..n]);
    }
  }

  lemma CallIsReading(name: string)
    ensures IsSelect(CallText(name)) && TrimSpace(CallText(name)) == CallText(name)
  {
    var text := CallText(name);
    assert Span(text, IsBlank) == 0 && text[0..] == text;
    assert text[|text| - 1] == ')';
    var upper := ToUpper(text);
    assert upper[..6] == "SELECT";
  }
}
