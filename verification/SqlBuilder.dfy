/**
 The statement builder of internal/service/postgres.go: identifier quoting and the loops over a
 Go map, in whatever order the runtime iterates it, that print INSERT and UPDATE text.
 */
module SqlBuilder {
  import opened Text
  import opened Values

  // ----- isValidIdentifier and quoteIdentifier -----

  predicate IsIdentifierStart(c: char) { IsLetter(c) || c == '_' }

  predicate IsIdentifierPart(c: char) { IsIdentifierStart(c) || IsDigit(c) }

  predicate IsValidIdentifier(name: string) {
    name != "" && IsIdentifierStart(name[0]) && forall c | c in name :: IsIdentifierPart(c)
  }

  /** strings.ReplaceAll(name, `"`, `""`) */
  function DoubleQuotes(name: string): string {
    if name == "" then ""
    else if name[0] == '"' then "\"\"" + DoubleQuotes(name[1..])
    else [name[0]] + DoubleQuotes(name[1..])
  }

  function QuoteIdentifier(name: string): string {
    "\"" + DoubleQuotes(name) + "\""
  }

  // ----- statement text for one iteration order of a row -----

  /** `order` lists the keys of `row`, each once: one possible `range` over the Go map. */
  predicate IsOrderOf(order: seq<string>, row: Row) {
    && (forall k | k in order :: k in row)
    && (forall k | k in row :: k in order)
    && Distinct(order)
  }

  predicate Distinct(names: seq<string>) {
    forall i, j | 0 <= i < j < |names| :: names[i] != names[j]
  }

  function Quoted(names: seq<string>): (q: seq<string>)
    ensures |q| == |names|
  {
    seq(|names|, i requires 0 <= i < |names| => QuoteIdentifier(names[i]))
  }

  function Placeholder(i: nat): string { "$" + Decimal(i) }

  function Placeholders(n: nat): (p: seq<string>)
    ensures |p| == n
  {
    seq(n, i requires 0 <= i < n => Placeholder(i + 1))
  }

  function Assignment(name: string, i: nat): string {
    QuoteIdentifier(name) + " = " + Placeholder(i)
  }

  function Assignments(names: seq<string>): (a: seq<string>)
    ensures |a| == |names|
  {
    seq(|names|, i requires 0 <= i < |names| => Assignment(names[i], i + 1))
  }

  function ValuesOf(order: seq<string>, row: Row): (vals: seq<Native>)
    requires forall k | k in order :: k in row
    ensures |vals| == |order|
  {
    seq(|order|, i requires 0 <= i < |order| => row[order[i]])
  }

  function InsertText(table: string, order: seq<string>, returning: bool): string {
    "INSERT INTO " + QuoteIdentifier(table)
    + " (" + Join(Quoted(order), ", ")
    + ") VALUES (" + Join(Placeholders(|order|), ", ") + ")"
    + (if returning then " RETURNING id" else "")
  }

  function UpdateText(table: string, order: seq<string>): string {
    "UPDATE " + QuoteIdentifier(table)
    + " SET " + Join(Assignments(order), ", ")
    + " WHERE id = " + Placeholder(|order| + 1)
  }

  function DeleteText(table: string): string {
    "DELETE FROM " + QuoteIdentifier(table) + " WHERE id = $1"
  }

  function SelectText(table: string): string {
    "SELECT * FROM " + QuoteIdentifier(table) + " LIMIT $1"
  }

  // ----- the loops -----

  /** The loop of InsertData over its row, and the two texts printed from what it collects. */
  method BuildInsert(table: string, row: Row) returns (text: string, fallback: string, vals: seq<Native>)
    ensures exists order ::
              && IsOrderOf(order, row)
              && text == InsertText(table, order, true)
              && fallback == InsertText(table, order, false)
              && vals == ValuesOf(order, row)
  {
    var cols, placeholders, i := [], [], 1;
    var remaining := row.Keys;
    ghost var order := [];
    vals := [];
    while remaining != {}
      invariant remaining <= row.Keys
      invariant forall k :: k in order <==> k in row && k !in remaining
      invariant Distinct(order)
      invariant i == |order| + 1
      invariant cols == Quoted(order) && placeholders == Placeholders(|order|)
      invariant vals == ValuesOf(order, row)
      decreases remaining
    {
      var k :| k in remaining;
      cols := cols + [QuoteIdentifier(k)];
      placeholders := placeholders + [Placeholder(i)];
      vals := vals + [row[k]];
      i := i + 1;
      remaining := remaining - {k};
      order := order + [k];
    }
    fallback := "INSERT INTO " + QuoteIdentifier(table) + " (" + Join(cols, ", ")
                + ") VALUES (" + Join(placeholders, ", ") + ")";
    text := fallback + " RETURNING id";
    assert fallback == fallback + "";
    assert IsOrderOf(order, row);
  }

  /** The loop of UpdateData: the id is appended to the values and bound to the last placeholder. */
  method BuildUpdate(table: string, id: string, row: Row) returns (text: string, vals: seq<Native>)
    ensures exists order ::
              && IsOrderOf(order, row)
              && text == UpdateText(table, order)
              && vals == ValuesOf(order, row) + [Str(id)]
  {
    var setClauses, i := [], 1;
    var remaining := row.Keys;
    ghost var order := [];
    vals := [];
    while remaining != {}
      invariant remaining <= row.Keys
      invariant forall k :: k in order <==> k in row && k !in remaining
      invariant Distinct(order)
      invariant i == |order| + 1
      invariant setClauses == Assignments(order)
      invariant vals == ValuesOf(order, row)
      decreases remaining
    {
      var k :| k in remaining;
      setClauses := setClauses + [Assignment(k, i)];
      vals := vals + [row[k]];
      i := i + 1;
      remaining := remaining - {k};
      order := order + [k];
    }
    vals := vals + [Str(id)];
    text := "UPDATE " + QuoteIdentifier(table) + " SET " + Join(setClauses, ", ")
            + " WHERE id = " + Placeholder(i);
    assert IsOrderOf(order, row);
  }
}
