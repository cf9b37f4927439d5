/**
 The printer of SqlBuilder has an inverse: SqlSyntax reads back exactly the statement that was
 meant, whatever characters the column names hold.
 */
module SqlRoundTrip {
  import opened Text
  import opened Wrappers
  import opened SqlBuilder
  import opened SqlSyntax

  // ----- delimited identifiers -----

  lemma ReadOne(c: char, tail: string)
    requires c != '"'
    ensures ReadDelimited([c] + tail) == Extend(c, ReadDelimited(tail))
  {
    assert ([c] + tail)[1..] == tail;
  }

  lemma ReadDoubled(tail: string)
    ensures ReadDelimited("\"\"" + tail) == Extend('"', ReadDelimited(tail))
  {
    assert ("\"\"" + tail)[2..] == tail && ("\"\"" + tail)[1..][0] == '"';
  }

  /** Quoting is undone by the reader, which stops at the closing quote, exactly when no quote follows. */
  lemma {:induction false} DelimitedRoundTrip(name: string, rest: string)
    ensures ReadDelimited(DoubleQuotes(name) + "\"" + rest) == Some((name, rest)) <==> StopsAt(rest, IsQuote)
  {
    var s := DoubleQuotes(name) + "\"" + rest;
    if name == "" {
      assert s[1..] == rest;
    } else {
      var tail := DoubleQuotes(name[1..]) + "\"" + rest;
      DelimitedRoundTrip(name[1..], rest);
      if name[0] == '"' {
        assert s == "\"\"" + tail;
        ReadDoubled(tail);
      } else {
        assert s == [name[0]] + tail;
        ReadOne(name[0], tail);
      }
      hide ReadDelimited, DoubleQuotes;
      ExtendedName(name, rest, ReadDelimited(tail));
    }
  }

  lemma ExtendedName(name: string, rest: string, r: Option<(string, string)>)
    requires name != ""
    ensures Extend(name[0], r) == Some((name, rest)) <==> r == Some((name[1..], rest))
  {
    if r.Some? {
      assert ([name[0]] + r.value.0)[1..] == r.value.0;
      assert [name[0]] + name[1..] == name;
    }
  }

  lemma QuotingIsInjective(a: string, b: string)
    requires QuoteIdentifier(a) == QuoteIdentifier(b)
    ensures a == b
  {
    DelimitedRoundTrip(a, "");
    DelimitedRoundTrip(b, "");
    assert QuoteIdentifier(a)[1..] == DoubleQuotes(a) + "\"" + "";
    assert QuoteIdentifier(b)[1..] == DoubleQuotes(b) + "\"" + "";
  }

  // ----- one lexical element in front of any remaining text -----

  lemma LexEnd()
    ensures Lex("") == Some([])
  {
  }

  lemma LexSpace(rest: string)
    ensures Lex(" " + rest) == Lex(rest)
  {
    assert (" " + rest)[1..] == rest;
  }

  lemma LexPunctuation(c: char, rest: string)
    requires IsPunctuation(c)
    ensures Lex([c] + rest) == Prepend([Symbol(c)], Lex(rest))
  {
    assert ([c] + rest)[1..] == rest;
  }

  lemma LexEquals(rest: string)
    requires StopsAt(rest, IsOperatorPart)
    ensures Lex("=" + rest) == Prepend([Symbol('=')], Lex(rest))
  {
    assert ("=" + rest)[1..] == rest;
  }

  lemma LexStar(rest: string)
    requires StopsAt(rest, IsOperatorPart)
    ensures Lex("*" + rest) == Prepend([Symbol('*')], Lex(rest))
  {
    assert ("*" + rest)[1..] == rest;
  }

  lemma LexWord(w: string, lower: string, rest: string)
    requires w != "" && IsWordStart(w[0]) && forall i | 0 <= i < |w| :: IsWordPart(w[i])
    requires StopsAt(rest, IsWordPart)
    requires lower == ToLower(w)
    ensures Lex(w + rest) == Prepend([Word(lower)], Lex(rest))
  {
    SpanOfPrefix(w, rest, IsWordPart);
    assert (w + rest)[..|w|] == w && (w + rest)[|w|..] == rest;
  }

  /** The empty name is where quoting fails: PostgreSQL rejects a zero-length delimited identifier. */
  lemma LexQuoted(name: string, rest: string)
    requires StopsAt(rest, IsQuote)
    ensures Lex(QuoteIdentifier(name) + rest)
         == if name == "" then None else Prepend([Delimited(name)], Lex(rest))
  {
    DelimitedRoundTrip(name, rest);
    assert (QuoteIdentifier(name) + rest)[1..] == DoubleQuotes(name) + "\"" + rest;
  }

  lemma LexPlaceholder(n: nat, rest: string)
    requires StopsAt(rest, IsWordPart)
    ensures Lex(Placeholder(n) + rest) == Prepend([Param(n)], Lex(rest))
  {
    var d := Decimal(n);
    var s := Placeholder(n) + rest;
    SpanOfPrefix(d, rest, IsDigit);
    NumberOfDecimal(n);
    assert s[1..] == d + rest && s[1..1 + |d|] == d && s[1 + |d|..] == rest;
  }

  lemma PrependPrepend(a: seq<Token>, b: seq<Token>, r: Option<seq<Token>>)
    ensures Prepend(a, Prepend(b, r)) == Prepend(a + b, r)
  {
    if r.Some? {
      assert a + (b + r.value) == a + b + r.value;
    }
  }

  lemma PrependNothing(r: Option<seq<Token>>)
    ensures Prepend([], r) == r
  {
    if r.Some? {
      assert [] + r.value == r.value;
    }
  }

  // ----- comma-separated lists -----

  function NameTokens(names: seq<string>): seq<Token> {
    if |names| == 0 then []
    else if |names| == 1 then [Delimited(names[0])]
    else [Delimited(names[0]), Symbol(',')] + NameTokens(names[1..])
  }

  lemma NoNameTokens()
    ensures NameTokens([]) == []
  {
  }

  lemma {:induction false} LexNames(names: seq<string>, rest: string)
    requires StopsAt(rest, IsQuote)
    ensures Lex(Join(Quoted(names), ", ") + rest)
         == if "" in names then None else Prepend(NameTokens(names), Lex(rest))
  {
    hide Lex;
    if |names| == 0 {
      assert Join(Quoted(names), ", ") + rest == rest;
      PrependNothing(Lex(rest));
    } else if |names| == 1 {
      LexQuoted(names[0], rest);
    } else {
      var tail := Join(Quoted(names[1..]), ", ") + rest;
      assert Quoted(names)[1..] == Quoted(names[1..]);
      assert Join(Quoted(names), ", ") + rest == QuoteIdentifier(names[0]) + ("," + (" " + tail));
      LexQuoted(names[0], "," + (" " + tail));
      LexPunctuation(',', " " + tail);
      LexSpace(tail);
      LexNames(names[1..], rest);
      assert "" in names <==> names[0] == "" || "" in names[1..];
      PrependPrepend([Symbol(',')], NameTokens(names[1..]), Lex(rest));
      PrependPrepend([Delimited(names[0])], [Symbol(',')] + NameTokens(names[1..]), Lex(rest));
      assert [Delimited(names[0])] + ([Symbol(',')] + NameTokens(names[1..])) == NameTokens(names);
    }
  }

  lemma {:induction false} ReadNamesRoundTrip(names: seq<string>, rest: seq<Token>)
    requires names != []
    requires !Starts(rest, Symbol(','))
    ensures ReadNames(NameTokens(names) + rest) == Some((names, rest))
  {
    var ts := NameTokens(names) + rest;
    if |names| == 1 {
      assert ts[1..] == rest && names == [names[0]];
    } else {
      ReadNamesRoundTrip(names[1..], rest);
      assert ts[1..][1..] == NameTokens(names[1..]) + rest;
      assert [names[0]] + names[1..] == names;
    }
  }

  /** The numbers k, k + 1, ..., k + n - 1. */
  function Count(k: nat, n: nat): (c: seq<nat>)
    ensures |c| == n
  {
    seq(n, i requires 0 <= i < n => k + i)
  }

  function PlaceholdersFrom(k: nat, n: nat): (p: seq<string>)
    ensures |p| == n
  {
    seq(n, i requires 0 <= i < n => Placeholder(k + i))
  }

  function ParamTokens(k: nat, n: nat): seq<Token>
    decreases n
  {
    if n == 0 then []
    else if n == 1 then [Param(k)]
    else [Param(k), Symbol(',')] + ParamTokens(k + 1, n - 1)
  }

  lemma {:induction false} LexPlaceholders(k: nat, n: nat, rest: string)
    requires StopsAt(rest, IsWordPart)
    ensures Lex(Join(PlaceholdersFrom(k, n), ", ") + rest) == Prepend(ParamTokens(k, n), Lex(rest))
    decreases n
  {
    hide Lex;
    if n == 0 {
      assert Join(PlaceholdersFrom(k, n), ", ") + rest == rest;
      PrependNothing(Lex(rest));
    } else if n == 1 {
      LexPlaceholder(k, rest);
    } else {
      var tail := Join(PlaceholdersFrom(k + 1, n - 1), ", ") + rest;
      assert PlaceholdersFrom(k, n)[1..] == PlaceholdersFrom(k + 1, n - 1);
      assert Join(PlaceholdersFrom(k, n), ", ") + rest == Placeholder(k) + ("," + (" " + tail));
      LexPlaceholder(k, "," + (" " + tail));
      LexPunctuation(',', " " + tail);
      LexSpace(tail);
      LexPlaceholders(k + 1, n - 1, rest);
      PrependPrepend([Symbol(',')], ParamTokens(k + 1, n - 1), Lex(rest));
      PrependPrepend([Param(k)], [Symbol(',')] + ParamTokens(k + 1, n - 1), Lex(rest));
      assert [Param(k)] + ([Symbol(',')] + ParamTokens(k + 1, n - 1)) == ParamTokens(k, n);
    }
  }

  lemma {:induction false} ReadParamsRoundTrip(k: nat, n: nat, rest: seq<Token>)
    requires n > 0
    requires !Starts(rest, Symbol(','))
    ensures ReadParams(ParamTokens(k, n) + rest) == Some((Count(k, n), rest))
    decreases n
  {
    var ts := ParamTokens(k, n) + rest;
    if n == 1 {
      assert ts[1..] == rest && Count(k, n) == [k];
    } else {
      ReadParamsRoundTrip(k + 1, n - 1, rest);
      assert ts[2..] == ParamTokens(k + 1, n - 1) + rest;
      assert [k] + Count(k + 1, n - 1) == Count(k, n);
    }
  }

  function AssignmentsFrom(names: seq<string>, k: nat): (a: seq<string>)
    ensures |a| == |names|
  {
    seq(|names|, i requires 0 <= i < |names| => Assignment(names[i], k + i))
  }

  function AssignmentTokens(names: seq<string>, k: nat): seq<Token> {
    if |names| == 0 then []
    else [Delimited(names[0]), Symbol('='), Param(k)]
         + if |names| == 1 then [] else [Symbol(',')] + AssignmentTokens(names[1..], k + 1)
  }

  lemma LexAssignment(name: string, k: nat, rest: string)
    requires StopsAt(rest, IsWordPart)
    ensures Lex(Assignment(name, k) + rest)
         == if name == "" then None
            else Prepend([Delimited(name), Symbol('='), Param(k)], Lex(rest))
  {
    hide Lex;
    var tail := Placeholder(k) + rest;
    assert Assignment(name, k) + rest == QuoteIdentifier(name) + (" " + ("=" + (" " + tail)));
    LexQuoted(name, " " + ("=" + (" " + tail)));
    LexSpace("=" + (" " + tail));
    LexEquals(" " + tail);
    LexSpace(tail);
    LexPlaceholder(k, rest);
    PrependPrepend([Symbol('=')], [Param(k)], Lex(rest));
    PrependPrepend([Delimited(name)], [Symbol('=')] + [Param(k)], Lex(rest));
    assert [Delimited(name)] + ([Symbol('=')] + [Param(k)]) == [Delimited(name), Symbol('='), Param(k)];
  }

  lemma {:induction false} LexAssignments(names: seq<string>, k: nat, rest: string)
    requires names != []
    requires StopsAt(rest, IsWordPart)
    ensures Lex(Join(AssignmentsFrom(names, k), ", ") + rest)
         == if "" in names then None else Prepend(AssignmentTokens(names, k), Lex(rest))
    decreases |names|
  {
    hide Lex;
    var head := [Delimited(names[0]), Symbol('='), Param(k)];
    if |names| == 1 {
      LexAssignment(names[0], k, rest);
      assert head + [] == head;
    } else {
      var tail := Join(AssignmentsFrom(names[1..], k + 1), ", ") + rest;
      assert AssignmentsFrom(names, k)[1..] == AssignmentsFrom(names[1..], k + 1);
      assert Join(AssignmentsFrom(names, k), ", ") + rest == Assignment(names[0], k) + ("," + (" " + tail));
      LexAssignment(names[0], k, "," + (" " + tail));
      LexPunctuation(',', " " + tail);
      LexSpace(tail);
      LexAssignments(names[1..], k + 1, rest);
      assert "" in names <==> names[0] == "" || "" in names[1..];
      PrependPrepend([Symbol(',')], AssignmentTokens(names[1..], k + 1), Lex(rest));
      PrependPrepend(head, [Symbol(',')] + AssignmentTokens(names[1..], k + 1), Lex(rest));
    }
  }

  lemma ReadOneAssignment(name: string, k: nat, rest: seq<Token>)
    ensures ReadAssignments([Delimited(name), Symbol('='), Param(k)] + rest)
         == if !Starts(rest, Symbol(',')) then Some(([name], [k], rest))
            else match ReadAssignments(rest[1..])
              case None => None
              case Some((names, params, end)) => Some(([name] + names, [k] + params, end))
  {
    var ts := [Delimited(name), Symbol('='), Param(k)] + rest;
    var afterName := ts[1..];
    assert afterName[2..] == rest;
    assert rest != [] ==> afterName[3..] == rest[1..];
  }

  lemma AssignmentTokensStep(names: seq<string>, k: nat, rest: seq<Token>)
    requires names != []
    ensures AssignmentTokens(names, k) + rest
         == [Delimited(names[0]), Symbol('='), Param(k)]
            + if |names| == 1 then rest else [Symbol(',')] + (AssignmentTokens(names[1..], k + 1) + rest)
  {
    var first, comma := [Delimited(names[0]), Symbol('='), Param(k)], [Symbol(',')];
    if |names| == 1 {
      assert first + [] == first;
    } else {
      var more := AssignmentTokens(names[1..], k + 1);
      assert AssignmentTokens(names, k) == first + (comma + more);
      hide AssignmentTokens;
      assert first + (comma + more) + rest == first + (comma + (more + rest));
    }
  }

  lemma CountStep(k: nat, n: nat)
    requires n > 0
    ensures [k] + Count(k + 1, n - 1) == Count(k, n)
  {
  }

  lemma {:induction false} ReadAssignmentsRoundTrip(names: seq<string>, k: nat, rest: seq<Token>)
    requires names != []
    requires !Starts(rest, Symbol(','))
    ensures ReadAssignments(AssignmentTokens(names, k) + rest) == Some((names, Count(k, |names|), rest))
    decreases |names|
  {
    hide ReadAssignments, AssignmentTokens, Count;
    AssignmentTokensStep(names, k, rest);
    CountStep(k, |names|);
    assert [names[0]] + names[1..] == names;
    if |names| == 1 {
      ReadOneAssignment(names[0], k, rest);
      NoCount(k + 1);
      assert names == [names[0]];
      assert Count(k, |names|) == [k] by {
        var none := Count(k + 1, 0);
        assert [k] + none == [k];
      }
    } else {
      var more := AssignmentTokens(names[1..], k + 1) + rest;
      assert ([Symbol(',')] + more)[1..] == more && Starts([Symbol(',')] + more, Symbol(','));
      ReadOneAssignment(names[0], k, [Symbol(',')] + more);
      ReadAssignmentsRoundTrip(names[1..], k + 1, rest);
    }
  }

  lemma NoCount(k: nat)
    ensures Count(k, 0) == []
  {
  }

  // ----- whole statements -----

  /** A keyword or regular identifier, and its folded form. */
  predicate IsRegular(w: string, lower: string) {
    w != "" && IsWordStart(w[0]) && (forall i | 0 <= i < |w| :: IsWordPart(w[i])) && lower == ToLower(w)
  }

  lemma InsertKeyword(w: string, lower: string)
    requires
      || (w == "INSERT" && lower == "insert")
      || (w == "INTO" && lower == "into")
      || (w == "VALUES" && lower == "values")
      || (w == "RETURNING" && lower == "returning")
    ensures IsRegular(w, lower)
  {
  }

  lemma UpdateKeyword(w: string, lower: string)
    requires
      || (w == "UPDATE" && lower == "update")
      || (w == "SET" && lower == "set")
      || (w == "WHERE" && lower == "where")
      || (w == "id" && lower == "id")
    ensures IsRegular(w, lower)
  {
  }

  lemma OtherKeyword(w: string, lower: string)
    requires
      || (w == "DELETE" && lower == "delete")
      || (w == "FROM" && lower == "from")
      || (w == "SELECT" && lower == "select")
      || (w == "LIMIT" && lower == "limit")
    ensures IsRegular(w, lower)
  {
  }

  lemma ForeignKeyword(w: string, lower: string)
    requires
      || (w == "DROP" && lower == "drop")
      || (w == "TABLE" && lower == "table")
    ensures IsRegular(w, lower)
  {
  }

  lemma LexKeyword(w: string, lower: string, rest: string)
    requires IsRegular(w, lower)
    ensures Lex(w + " " + rest) == Prepend([Word(lower)], Lex(rest))
  {
    hide Lex;
    assert w + " " + rest == w + (" " + rest);
    LexWord(w, lower, " " + rest);
    LexSpace(rest);
  }

  function ReturningText(returning: bool): string { if returning then " RETURNING id" else "" }

  function ReturningTokens(returning: bool): seq<Token> {
    if returning then [Word("returning"), Word("id")] else []
  }

  lemma LexLastWord(w: string, lower: string)
    requires IsRegular(w, lower)
    ensures Lex(w) == Some([Word(lower)])
  {
    hide Lex;
    LexWord(w, lower, "");
    LexEnd();
    assert w + "" == w && [Word(lower)] + [] == [Word(lower)];
  }

  lemma LexReturningId(text: string, w: string, id: string)
    requires w == "RETURNING" && id == "id" && text == " " + (w + " " + id)
    ensures Lex(text) == Some(ReturningTokens(true))
  {
    hide Lex, IsRegular, QuoteIdentifier;
    LexSpace(w + " " + id);
    InsertKeyword(w, "returning");
    LexKeyword(w, "returning", id);
    UpdateKeyword(id, "id");
    LexLastWord(id, "id");
    assert [Word("returning")] + [Word("id")] == ReturningTokens(true);
  }

  lemma LexReturning(text: string, returning: bool)
    requires text == ReturningText(returning)
    ensures Lex(text) == Some(ReturningTokens(returning))
  {
    if returning {
      hide Lex;
      assert text == " " + (text[1..10] + " " + text[11..]);
      LexReturningId(text, text[1..10], text[11..]);
    }
  }

  function InsertTokens(table: string, order: seq<string>, returning: bool): seq<Token> {
    [Word("insert"), Word("into"), Delimited(table), Symbol('(')]
    + (NameTokens(order)
       + ([Symbol(')'), Word("values"), Symbol('(')]
          + (ParamTokens(1, |order|)
             + ([Symbol(')')] + ReturningTokens(returning)))))
  }

  /** The part of the text from the placeholders on. */
  lemma LexInsertTail(n: nat, returning: bool, text: string)
    requires text == Join(Placeholders(n), ", ") + (")" + ReturningText(returning))
    ensures Lex(text) == Some(ParamTokens(1, n) + ([Symbol(')')] + ReturningTokens(returning)))
  {
    hide Lex;
    var end := ReturningText(returning);
    assert Placeholders(n) == PlaceholdersFrom(1, n);
    LexPlaceholders(1, n, ")" + end);
    LexPunctuation(')', end);
    LexReturning(end, returning);
  }

  /** ) VALUES ( */
  lemma LexInsertMiddle(rest: string)
    ensures Lex(") VALUES (" + rest) == Prepend([Symbol(')'), Word("values"), Symbol('(')], Lex(rest))
  {
    hide Lex, IsRegular, QuoteIdentifier;
    assert ") VALUES (" + rest == ")" + (" " + ("VALUES" + " " + ("(" + rest)));
    LexPunctuation(')', " " + ("VALUES" + " " + ("(" + rest)));
    LexSpace("VALUES" + " " + ("(" + rest));
    InsertKeyword("VALUES", "values");
    LexKeyword("VALUES", "values", "(" + rest);
    LexPunctuation('(', rest);
    PrependPrepend([Word("values")], [Symbol('(')], Lex(rest));
    PrependPrepend([Symbol(')')], [Word("values")] + [Symbol('(')], Lex(rest));
    assert [Symbol(')')] + ([Word("values")] + [Symbol('(')]) == [Symbol(')'), Word("values"), Symbol('(')];
  }

  lemma LexInsertHead(table: string, rest: string)
    requires table != ""
    ensures Lex("INSERT INTO " + (QuoteIdentifier(table) + (" (" + rest)))
         == Prepend([Word("insert"), Word("into"), Delimited(table), Symbol('(')], Lex(rest))
  {
    hide Lex, IsRegular, QuoteIdentifier;
    var q := QuoteIdentifier(table) + (" " + ("(" + rest));
    assert "INSERT INTO " + (QuoteIdentifier(table) + (" (" + rest)) == "INSERT" + " " + ("INTO" + " " + q);
    InsertKeyword("INSERT", "insert");
    LexKeyword("INSERT", "insert", "INTO" + " " + q);
    InsertKeyword("INTO", "into");
    LexKeyword("INTO", "into", q);
    LexQuoted(table, " " + ("(" + rest));
    LexSpace("(" + rest);
    LexPunctuation('(', rest);
    PrependPrepend([Delimited(table)], [Symbol('(')], Lex(rest));
    PrependPrepend([Word("into")], [Delimited(table)] + [Symbol('(')], Lex(rest));
    PrependPrepend([Word("insert")], [Word("into")] + ([Delimited(table)] + [Symbol('(')]), Lex(rest));
    assert [Word("insert")] + ([Word("into")] + ([Delimited(table)] + [Symbol('(')]))
        == [Word("insert"), Word("into"), Delimited(table), Symbol('(')];
  }

  lemma Reassociate(a: string, b: string, c: string, d: string, e: string, f: string, g: string, h: string)
    ensures a + b + c + d + e + f + g + h == a + (b + (c + (d + (e + (f + (g + h))))))
  {
  }

  lemma LexInsert(table: string, order: seq<string>, returning: bool)
    requires table != ""
    ensures Lex(InsertText(table, order, returning))
         == if "" in order then None else Some(InsertTokens(table, order, returning))
  {
    hide Lex;
    var n := |order|;
    var params := Join(Placeholders(n), ", ") + (")" + ReturningText(returning));
    var middle := ") VALUES (" + params;
    var columns := Join(Quoted(order), ", ") + middle;
    Reassociate("INSERT INTO ", QuoteIdentifier(table), " (", Join(Quoted(order), ", "), ") VALUES (",
                Join(Placeholders(n), ", "), ")", ReturningText(returning));
    LexInsertHead(table, columns);
    LexNames(order, middle);
    LexInsertMiddle(params);
    LexInsertTail(n, returning, params);
  }

  function InsertOf(table: string, order: seq<string>, returning: bool): Statement {
    Insert(table, order, Count(1, |order|), if returning then Some("id") else None)
  }

  lemma ReadNamesNeedsName(ts: seq<Token>)
    requires ReadName(ts) == None
    ensures ReadNames(ts) == None
  {
  }

  lemma ParseInsertTokens(table: string, order: seq<string>, returning: bool)
    ensures ParseTokens(InsertTokens(table, order, returning))
         == if order == [] then None else Some(InsertOf(table, order, returning))
  {
    hide ReadNames, ReadParams, NameTokens, ParamTokens;
    var n := |order|;
    var end := [Symbol(')')] + ReturningTokens(returning);
    var params := ParamTokens(1, n) + end;
    var middle := [Symbol(')'), Word("values"), Symbol('(')] + params;
    var ts := InsertTokens(table, order, returning);
    assert ts[2..][1..][1..] == NameTokens(order) + middle;
    if order == [] {
      NoNameTokens();
      assert NameTokens(order) + middle == middle;
      ReadNamesNeedsName(middle);
    } else {
      ReadNamesRoundTrip(order, middle);
      assert middle[..3] == [Symbol(')'), Word("values"), Symbol('(')] && middle[3..] == params;
      ReadParamsRoundTrip(1, n, end);
      assert end[1..] == ReturningTokens(returning);
    }
  }

  /**
   The INSERT text reads back as the statement that was meant, exactly when the row is not empty
   and no column name is; otherwise it is not a statement at all.
   */
  lemma InsertRoundTrip(table: string, order: seq<string>, returning: bool)
    requires IsValidIdentifier(table)
    ensures Parse(InsertText(table, order, returning))
         == if order != [] && "" !in order then Some(InsertOf(table, order, returning)) else None
  {
    hide Lex, ParseTokens;
    LexInsert(table, order, returning);
    ParseInsertTokens(table, order, returning);
  }

  /** Without columns the INSERT is not merely unknown to the reader, it is no SQL. */
  lemma EmptyInsertIsMalformed(table: string, order: seq<string>, returning: bool)
    requires IsValidIdentifier(table) && order == []
    ensures IsMalformed(InsertText(table, order, returning))
  {
    hide Lex, InsertText, ReturningTokens;
    LexInsert(table, order, returning);
    EmptyInsertTokens(table, order, returning);
  }

  lemma EmptyInsertTokens(table: string, order: seq<string>, returning: bool)
    requires order == []
    ensures LacksColumns(InsertTokens(table, order, returning))
  {
  }

  // ----- UPDATE -----

  function UpdateTokens(table: string, order: seq<string>): seq<Token> {
    [Word("update"), Delimited(table), Word("set")]
    + (AssignmentTokens(order, 1)
       + [Word("where"), Word("id"), Symbol('='), Param(|order| + 1)])
  }

  lemma LexUpdateHead(table: string, rest: string)
    requires table != ""
    ensures Lex("UPDATE " + (QuoteIdentifier(table) + (" SET " + rest)))
         == Prepend([Word("update"), Delimited(table), Word("set")], Lex(rest))
  {
    hide Lex, IsRegular, QuoteIdentifier;
    var setClause := "SET" + " " + rest;
    var q := QuoteIdentifier(table) + (" " + setClause);
    assert "UPDATE " + (QuoteIdentifier(table) + (" SET " + rest)) == "UPDATE" + " " + q;
    UpdateKeyword("UPDATE", "update");
    LexKeyword("UPDATE", "update", q);
    LexQuoted(table, " " + setClause);
    LexSpace(setClause);
    UpdateKeyword("SET", "set");
    LexKeyword("SET", "set", rest);
    PrependPrepend([Delimited(table)], [Word("set")], Lex(rest));
    PrependPrepend([Word("update")], [Delimited(table)] + [Word("set")], Lex(rest));
    assert [Word("update")] + ([Delimited(table)] + [Word("set")]) == [Word("update"), Delimited(table), Word("set")];
  }

  lemma LexUpdateTail(n: nat)
    ensures Lex(" WHERE id = " + Placeholder(n))
         == Some([Word("where"), Word("id"), Symbol('='), Param(n)])
  {
    hide Lex, IsRegular, QuoteIdentifier;
    var p := Placeholder(n);
    var eq := "=" + (" " + p);
    assert " WHERE id = " + p == " " + ("WHERE" + " " + ("id" + " " + eq));
    LexSpace("WHERE" + " " + ("id" + " " + eq));
    UpdateKeyword("WHERE", "where");
    LexKeyword("WHERE", "where", "id" + " " + eq);
    UpdateKeyword("id", "id");
    LexKeyword("id", "id", eq);
    LexEquals(" " + p);
    LexSpace(p);
    LexPlaceholder(n, "");
    LexEnd();
    assert p + "" == p;
    assert [Word("where")] + ([Word("id")] + ([Symbol('=')] + ([Param(n)] + [])))
        == [Word("where"), Word("id"), Symbol('='), Param(n)];
  }

  lemma LexUpdate(table: string, order: seq<string>)
    requires table != ""
    requires order != []
    ensures Lex(UpdateText(table, order))
         == if "" in order then None else Some(UpdateTokens(table, order))
  {
    hide Lex;
    var n := |order| + 1;
    var end := " WHERE id = " + Placeholder(n);
    var sets := Join(Assignments(order), ", ") + end;
    Reassociate("UPDATE ", QuoteIdentifier(table), " SET ", Join(Assignments(order), ", "), " WHERE id = ",
                Placeholder(n), "", "");
    assert Placeholder(n) + ("" + "") == Placeholder(n);
    assert UpdateText(table, order) + "" + "" == UpdateText(table, order);
    assert Assignments(order) == AssignmentsFrom(order, 1);
    LexUpdateHead(table, sets);
    LexAssignments(order, 1, end);
    LexUpdateTail(n);
  }

  function UpdateOf(table: string, order: seq<string>): Statement {
    Update(table, order, Count(1, |order|), "id", |order| + 1)
  }

  lemma ParseUpdateTokens(table: string, order: seq<string>)
    requires order != []
    ensures ParseTokens(UpdateTokens(table, order)) == Some(UpdateOf(table, order))
  {
    hide ReadAssignments, AssignmentTokens;
    var end := [Word("where"), Word("id"), Symbol('='), Param(|order| + 1)];
    var ts := UpdateTokens(table, order);
    assert ts[1..][1..][1..] == AssignmentTokens(order, 1) + end;
    ReadAssignmentsRoundTrip(order, 1, end);
    assert end[1..][1..] == [Symbol('='), Param(|order| + 1)];
  }

  /** UpdateData refuses the empty row before it prints, so only an empty column name is left. */
  lemma UpdateRoundTrip(table: string, order: seq<string>)
    requires IsValidIdentifier(table)
    requires order != []
    ensures Parse(UpdateText(table, order))
         == if "" in order then None else Some(UpdateOf(table, order))
  {
    hide Lex, ParseTokens;
    LexUpdate(table, order);
    ParseUpdateTokens(table, order);
  }

  // ----- DELETE -----

  lemma LexDelete(table: string)
    requires table != ""
    ensures Lex(DeleteText(table))
         == Some([Word("delete"), Word("from"), Delimited(table), Word("where"), Word("id"), Symbol('='), Param(1)])
  {
    hide Lex, IsRegular, QuoteIdentifier;
    var end := " WHERE id = " + Placeholder(1);
    var q := QuoteIdentifier(table) + end;
    assert Placeholder(1) == "$1";
    assert DeleteText(table) == "DELETE" + " " + ("FROM" + " " + q);
    OtherKeyword("DELETE", "delete");
    LexKeyword("DELETE", "delete", "FROM" + " " + q);
    OtherKeyword("FROM", "from");
    LexKeyword("FROM", "from", q);
    LexQuoted(table, end);
    LexUpdateTail(1);
    var condition := [Word("where"), Word("id"), Symbol('='), Param(1)];
    assert [Word("delete")] + ([Word("from")] + ([Delimited(table)] + condition))
        == [Word("delete"), Word("from"), Delimited(table), Word("where"), Word("id"), Symbol('='), Param(1)];
  }

  lemma DeleteRoundTrip(table: string)
    requires IsValidIdentifier(table)
    ensures Parse(DeleteText(table)) == Some(Delete(table, "id", 1))
  {
    hide Lex, ParseTokens, DeleteText;
    LexDelete(table);
    ParseDeleteTokens(table, "id");
  }

  lemma ParseDeleteTokens(table: string, key: string)
    requires key == "id"
    ensures ParseTokens([Word("delete"), Word("from"), Delimited(table), Word("where"), Word(key), Symbol('='),
                         Param(1)])
         == Some(Delete(table, key, 1))
  {
    var end := [Word("where"), Word(key), Symbol('='), Param(1)];
    var ts := [Word("delete"), Word("from"), Delimited(table)] + end;
    assert ts == [Word("delete"), Word("from"), Delimited(table), Word("where"), Word(key), Symbol('='), Param(1)];
    assert ts[2..][1..] == end && end[1..][1..] == [Symbol('='), Param(1)];
  }

  // ----- SELECT -----

  lemma LexSelectTail(rest: string)
    requires rest == Placeholder(1)
    ensures Lex(" LIMIT " + rest) == Some([Word("limit"), Param(1)])
  {
    hide Lex, IsRegular, QuoteIdentifier;
    assert " LIMIT " + rest == " " + ("LIMIT" + " " + rest);
    LexSpace("LIMIT" + " " + rest);
    OtherKeyword("LIMIT", "limit");
    LexKeyword("LIMIT", "limit", rest);
    LexPlaceholder(1, "");
    LexEnd();
    assert rest + "" == rest;
    assert [Word("limit")] + ([Param(1)] + []) == [Word("limit"), Param(1)];
  }

  lemma LexSelect(table: string)
    requires table != ""
    ensures Lex(SelectText(table))
         == Some([Word("select"), Symbol('*'), Word("from"), Delimited(table), Word("limit"), Param(1)])
  {
    hide Lex, IsRegular, QuoteIdentifier;
    assert Placeholder(1) == "$1";
    var end := " LIMIT " + Placeholder(1);
    var q := QuoteIdentifier(table) + end;
    var from := " " + ("FROM" + " " + q);
    assert SelectText(table) == "SELECT" + " " + ("*" + from);
    OtherKeyword("SELECT", "select");
    LexKeyword("SELECT", "select", "*" + from);
    LexStar(from);
    LexSpace("FROM" + " " + q);
    OtherKeyword("FROM", "from");
    LexKeyword("FROM", "from", q);
    LexQuoted(table, end);
    LexSelectTail(Placeholder(1));
    assert [Word("select")] + ([Symbol('*')] + ([Word("from")] + ([Delimited(table)] + [Word("limit"), Param(1)])))
        == [Word("select"), Symbol('*'), Word("from"), Delimited(table), Word("limit"), Param(1)];
  }

  lemma SelectRoundTrip(table: string)
    requires IsValidIdentifier(table)
    ensures Parse(SelectText(table)) == Some(Select(table, 1))
  {
    hide Lex;
    LexSelect(table);
    var end := [Word("limit"), Param(1)];
    var ts := [Word("select"), Symbol('*'), Word("from"), Delimited(table)] + end;
    assert ts[1..][2..][1..] == end;
  }

  // ----- which names are valid -----

  lemma {:induction false} WordIsNotLonger(s: string, w: string)
    requires Lex(s) == Some([Word(w)])
    ensures |w| <= |s|
    decreases |s|
  {
    if IsSpace(s[0]) {
      WordIsNotLonger(s[1..], w);
    } else {
      StartsWithWord(s, w);
      LeadingWord(s, w);
    }
  }

  lemma LeadingWord(s: string, w: string)
    requires s != "" && IsWordStart(s[0]) && Lex(s) == Some([Word(w)])
    ensures w == ToLower(s[..Span(s, IsWordPart)])
  {
    var n := Span(s, IsWordPart);
    var more := Lex(s[n..]);
    assert Prepend([Word(ToLower(s[..n]))], more) == Some([Word(w)]);
    assert ([Word(ToLower(s[..n]))] + more.value)[0] == Word(w);
  }

  /** A name is valid exactly when it is read as one regular identifier and has no dollar sign. */
  lemma ValidIsOneWord(name: string)
    ensures IsValidIdentifier(name) <==> Lex(name) == Some([Word(ToLower(name))]) && '$' !in name
  {
    if IsValidIdentifier(name) {
      ValidIsRead(name);
    } else if Lex(name) == Some([Word(ToLower(name))]) && '$' !in name {
      OneWordIsValid(name);
    }
  }

  lemma ValidIsRead(name: string)
    requires IsValidIdentifier(name)
    ensures Lex(name) == Some([Word(ToLower(name))]) && '$' !in name
  {
    forall i | 0 <= i < |name| ensures IsWordPart(name[i]) && name[i] != '$' { assert name[i] in name; }
    assert IsRegular(name, ToLower(name));
    LexLastWord(name, ToLower(name));
  }

  lemma OneWordIsValid(name: string)
    requires Lex(name) == Some([Word(ToLower(name))]) && '$' !in name
    ensures IsValidIdentifier(name)
  {
    var w := ToLower(name);
    if name == "" {
      LexEnd();
      assert false;
    } else if IsSpace(name[0]) {
      WordIsNotLonger(name[1..], w);
      assert false;
    } else {
      StartsWithWord(name, w);
      LeadingWord(name, w);
      var n := Span(name, IsWordPart);
      assert |w| == n == |name|;
      hide Lex, Span;
      forall c | c in name ensures IsIdentifierPart(c) {
        var i :| 0 <= i < |name| && name[i] == c;
        assert IsWordPart(name[i]);
      }
    }
  }

  lemma StartsWithWord(s: string, w: string)
    requires s != "" && !IsSpace(s[0]) && Lex(s) == Some([Word(w)])
    ensures IsWordStart(s[0])
  {
    if s[0] == '"' {
      var read := ReadDelimited(s[1..]).value;
      NotAhead([Delimited(read.0)], Lex(read.1), w);
    } else if s[0] == '$' {
      var n := Span(s[1..], IsDigit);
      NotAhead([Param(Number(s[1..1 + n]))], Lex(s[1 + n..]), w);
    } else if !IsWordStart(s[0]) {
      NotAhead([Symbol(s[0])], Lex(s[1..]), w);
    }
  }

  lemma NotAhead(first: seq<Token>, r: Option<seq<Token>>, w: string)
    requires |first| == 1 && !first[0].Word?
    ensures Prepend(first, r) != Some([Word(w)])
  {
    if r.Some? { assert (first + r.value)[0] == first[0]; }
  }

  // ----- text the router does not print -----

  /** DROP TABLE, as an example of a statement that only a client can send. */
  function DropText(table: string): string { "DROP TABLE " + QuoteIdentifier(table) }

  lemma DropIsOtherText(table: string)
    requires table != ""
    ensures Parse(DropText(table)).None? && !IsMalformed(DropText(table))
  {
    hide Lex, IsRegular, QuoteIdentifier;
    var q := QuoteIdentifier(table);
    assert DropText(table) == "DROP" + " " + ("TABLE" + " " + q);
    ForeignKeyword("DROP", "drop");
    LexKeyword("DROP", "drop", "TABLE" + " " + q);
    ForeignKeyword("TABLE", "table");
    LexKeyword("TABLE", "table", q);
    LexQuoted(table, "");
    LexEnd();
    assert q + "" == q;
    assert [Word("drop")] + ([Word("table")] + ([Delimited(table)] + []))
        == [Word("drop"), Word("table"), Delimited(table)];
  }

  /** A query that calls a function, as an example of one that is run for its rows and may still change tables. */
  function CallText(name: string): string { "SELECT " + name + "()" }

  lemma SelectCallIsOtherText(name: string, lower: string)
    requires name != "" && IsWordStart(name[0]) && forall i | 0 <= i < |name| :: IsWordPart(name[i])
    requires lower == ToLower(name)
    ensures Parse(CallText(name)).None? && !IsMalformed(CallText(name))
  {
    hide Lex, IsRegular, QuoteIdentifier;
    assert CallText(name) == "SELECT" + " " + (name + "()");
    OtherKeyword("SELECT", "select");
    LexKeyword("SELECT", "select", name + "()");
    LexWord(name, lower, "()");
    LexPunctuation('(', ")");
    LexPunctuation(')', "");
    LexEnd();
    assert "(" + ")" == "()" && ")" + "" == ")";
    assert [Word("select")] + ([Word(lower)] + ([Symbol('(')] + ([Symbol(')')] + [])))
        == [Word("select"), Word(lower), Symbol('('), Symbol(')')];
  }
}
