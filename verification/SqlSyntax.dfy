/**
 A reader for the SQL the router prints, written from the standard and not from the printer:
 delimited identifiers (section 5.2 of ISO/IEC 9075-2, section 4.1.1 of the PostgreSQL
 documentation), positional parameters (section 4.2.2 of the same) and the INSERT and UPDATE
 statements. Text outside this subset is rejected.
 */
module SqlSyntax {
  import opened Text
  import opened Wrappers

  datatype Token =
    | Word(text: string)         // keyword or regular identifier, folded to lower case
    | Delimited(name: string)    // "..." with the doubled quotes undone
    | Param(n: nat)              // $n
    | Symbol(c: char)

  // ----- lexer -----

  predicate IsSpace(c: char) { c == ' ' || c == '\t' || c == '\n' || c == '\r' }

  predicate IsWordStart(c: char) { IsLetter(c) || c == '_' }

  predicate IsWordPart(c: char) { IsWordStart(c) || IsDigit(c) || c == '$' }

  predicate IsOperatorPart(c: char) { c in "+-*/<>=~!@#%^&|`?" }

  predicate IsPunctuation(c: char) { c == '(' || c == ')' || c == ',' }

  predicate IsQuote(c: char) { c == '"' }

  /** Reads a delimited identifier whose opening quote has been consumed. */
  function ReadDelimited(s: string): (r: Option<(string, string)>)
    ensures r.Some? ==> |r.value.1| < |s|
  {
    if s == "" then None
    else if s[0] != '"' then Extend(s[0], ReadDelimited(s[1..]))
    else if StopsAt(s[1..], IsQuote) then Some(("", s[1..]))
    else Extend('"', ReadDelimited(s[2..]))
  }

  function Extend(c: char, r: Option<(string, string)>): Option<(string, string)> {
    match r
    case None => None
    case Some((name, rest)) => Some(([c] + name, rest))
  }

  function Prepend(ts: seq<Token>, r: Option<seq<Token>>): Option<seq<Token>> {
    match r
    case None => None
    case Some(more) => Some(ts + more)
  }

  function Lex(s: string): Option<seq<Token>>
    decreases |s|
  {
    if s == "" then Some([])
    else if IsSpace(s[0]) then Lex(s[1..])
    else if s[0] == '"' then
      match ReadDelimited(s[1..])
      case None => None
      case Some((name, rest)) =>
        if name == "" then None  // zero-length delimited identifier
        else Prepend([Delimited(name)], Lex(rest))
    else if IsWordStart(s[0]) then
      var n := Span(s, IsWordPart);
      if n == 0 then None else Prepend([Word(ToLower(s[..n]))], Lex(s[n..]))
    else if s[0] == '$' then
      var n := Span(s[1..], IsDigit);
      var rest := s[1 + n..];
      if n == 0 || !StopsAt(rest, IsWordStart) then None  // a dollar quote, or junk after $n
      else Prepend([Param(Number(s[1..1 + n]))], Lex(rest))
    else if IsPunctuation(s[0]) then Prepend([Symbol(s[0])], Lex(s[1..]))
    else if (s[0] == '=' || s[0] == '*') && StopsAt(s[1..], IsOperatorPart) then Prepend([Symbol(s[0])], Lex(s[1..]))
    else None
  }

  // ----- parser -----

  datatype Statement =
    | Insert(table: string, columns: seq<string>, params: seq<nat>, returning: Option<string>)
    | Update(table: string, columns: seq<string>, params: seq<nat>, key: string, keyParam: nat)
    | Delete(table: string, key: string, keyParam: nat)
    | Select(table: string, limitParam: nat)

  const RESERVED: set<string> :=
    {"insert", "into", "values", "returning", "update", "set", "delete", "from", "where", "select", "limit"}

  predicate Starts(ts: seq<Token>, t: Token) { ts != [] && ts[0] == t }

  /** A column or table name: delimited, or a regular identifier that is not a keyword. */
  function ReadName(ts: seq<Token>): (r: Option<(string, seq<Token>)>)
    ensures r.Some? ==> |r.value.1| < |ts|
  {
    if ts == [] then None
    else match ts[0]
      case Delimited(name) => Some((name, ts[1..]))
      case Word(w) => if w in RESERVED then None else Some((w, ts[1..]))
      case _ => None
  }

  function ReadNames(ts: seq<Token>): Option<(seq<string>, seq<Token>)>
    decreases |ts|
  {
    match ReadName(ts)
    case None => None
    case Some((name, rest)) =>
      if !Starts(rest, Symbol(',')) then Some(([name], rest))
      else match ReadNames(rest[1..])
        case None => None
        case Some((names, end)) => Some(([name] + names, end))
  }

  function ReadParams(ts: seq<Token>): Option<(seq<nat>, seq<Token>)>
    decreases |ts|
  {
    if ts == [] || !ts[0].Param? then None
    else if !Starts(ts[1..], Symbol(',')) then Some(([ts[0].n], ts[1..]))
    else match ReadParams(ts[2..])
      case None => None
      case Some((params, end)) => Some(([ts[0].n] + params, end))
  }

  /** name = $n, name = $n, ... */
  function ReadAssignments(ts: seq<Token>): Option<(seq<string>, seq<nat>, seq<Token>)>
    decreases |ts|
  {
    match ReadName(ts)
    case None => None
    case Some((name, rest)) =>
      if |rest| < 2 || rest[0] != Symbol('=') || !rest[1].Param? then None
      else if !Starts(rest[2..], Symbol(',')) then Some(([name], [rest[1].n], rest[2..]))
      else match ReadAssignments(rest[3..])
        case None => None
        case Some((names, params, end)) => Some(([name] + names, [rest[1].n] + params, end))
  }

  function ParseInsert(ts: seq<Token>): Option<Statement> {
    match ReadName(ts)
    case None => None
    case Some((table, afterTable)) =>
      if !Starts(afterTable, Symbol('(')) then None
      else match ReadNames(afterTable[1..])
        case None => None
        case Some((columns, afterColumns)) =>
          if |afterColumns| < 3 || afterColumns[..3] != [Symbol(')'), Word("values"), Symbol('(')] then None
          else match ReadParams(afterColumns[3..])
            case None => None
            case Some((params, afterParams)) =>
              if !Starts(afterParams, Symbol(')')) then None
              else ParseReturning(table, columns, params, afterParams[1..])
  }

  function ParseReturning(table: string, columns: seq<string>, params: seq<nat>, ts: seq<Token>): Option<Statement> {
    if ts == [] then Some(Insert(table, columns, params, None))
    else if !Starts(ts, Word("returning")) then None
    else match ReadName(ts[1..])
      case None => None
      case Some((name, end)) => if end == [] then Some(Insert(table, columns, params, Some(name))) else None
  }

  function ParseUpdate(ts: seq<Token>): Option<Statement> {
    match ReadName(ts)
    case None => None
    case Some((table, afterTable)) =>
      if !Starts(afterTable, Word("set")) then None
      else match ReadAssignments(afterTable[1..])
        case None => None
        case Some((targets, params, afterSet)) =>
          match ReadWhere(afterSet)
          case None => None
          case Some((key, keyParam)) => Some(Update(table, targets, params, key, keyParam))
  }

  /** WHERE name = $n, to the end of the text. */
  function ReadWhere(ts: seq<Token>): Option<(string, nat)> {
    if !Starts(ts, Word("where")) then None
    else match ReadName(ts[1..])
      case None => None
      case Some((key, end)) =>
        if |end| == 2 && end[0] == Symbol('=') && end[1].Param? then Some((key, end[1].n)) else None
  }

  function ParseDelete(ts: seq<Token>): Option<Statement> {
    match ReadName(ts)
    case None => None
    case Some((table, afterTable)) =>
      match ReadWhere(afterTable)
      case None => None
      case Some((key, keyParam)) => Some(Delete(table, key, keyParam))
  }

  /** SELECT * FROM name LIMIT $n */
  function ParseSelect(ts: seq<Token>): Option<Statement> {
    if |ts| < 2 || ts[0] != Symbol('*') || ts[1] != Word("from") then None
    else match ReadName(ts[2..])
      case None => None
      case Some((table, end)) =>
        if |end| == 2 && end[0] == Word("limit") && end[1].Param? then Some(Select(table, end[1].n)) else None
  }

  function ParseTokens(ts: seq<Token>): Option<Statement> {
    if |ts| >= 2 && ts[0] == Word("insert") && ts[1] == Word("into") then ParseInsert(ts[2..])
    else if |ts| >= 1 && ts[0] == Word("update") then ParseUpdate(ts[1..])
    else if |ts| >= 1 && ts[0] == Word("select") then ParseSelect(ts[1..])
    else if |ts| >= 2 && ts[0] == Word("delete") && ts[1] == Word("from") then ParseDelete(ts[2..])
    else None
  }

  /** INSERT INTO name ( ): no SQL grammar allows an empty column list. */
  predicate LacksColumns(ts: seq<Token>) {
    && |ts| >= 2 && ts[0] == Word("insert") && ts[1] == Word("into")
    && match ReadName(ts[2..])
       case None => false
       case Some((_, rest)) => |rest| >= 2 && rest[0] == Symbol('(') && rest[1] == Symbol(')')
  }

  predicate IsMalformed(s: string) {
    match Lex(s)
    case None => false
    case Some(ts) => LacksColumns(ts)
  }

  function Parse(s: string): Option<Statement> {
    match Lex(s)
    case None => None
    case Some(ts) => ParseTokens(ts)
  }
}
