# Database Router: verified model of the data path

A Dafny model of the parts of the Database Router that decide what a database sees and what a
client reads back, with proofs of what they promise. `dafny verify dfyconfig.toml` checks it.

**SQL statements.** `SqlBuilder` holds identifier quoting and the loops of InsertData and UpdateData
over a Go map, in whatever order the runtime iterates it. `SqlSyntax` is a lexer and parser written
from the standard (delimited identifiers: section 5.2 of ISO/IEC 9075-2 and section 4.1.1 of the
PostgreSQL documentation; positional parameters: section 4.2.2 of the same). `SqlRoundTrip` proves
that the parser inverts the printer for column names of any characters. `SqlSemantics` runs a parsed
statement with its bound values on tables and proves that the router's statements are the intended
map updates, for every iteration order. Equality of a stored value and a bound one is a parameter,
so the proofs hold under any casts and any treatment of NULL. So are the maps and lists that can be
bound at all, and what a server makes of SQL that the router does not print and only ExecuteQuery
passes on. What an insertion, update or deletion leaves is also said row by row and column by column.
`QueryText` says which queries ExecuteQuery runs for their rows, and what text it sends.

**Connections.** `Lifecycle` is a state machine of concurrent requests: one shared handle per backend,
temporary handles, cursors, Go's deferred closes, driver failures at every step, graceful stop and the
final Close. `Manager` and `PostgresService` are the same code run call by call on the heap, over a
driver that may fail anywhere, counts its faults and logs what it is sent, so that contracts say what a
success means, that an error without a fault has its reason in the request, and which statements were
sent where. `ConnectionString` reads back what the Manager prints (section 34.1.1.1 of the PostgreSQL
16 documentation), for plain fields and for any database name at all, and `Endpoints` derives the
server and the database that a temporary handle reaches. `Requests` ties the two together: what each
service method does to the handles and cursors is what a request of the state machine does.

**Values.** `Convert` and `ClientValues` are the conversions on the server and in the Go client,
composed in both directions; `FloatRounding` is Go's integer to float64 conversion (round to nearest,
ties to even, section 4.3.1 of IEEE 754-2019).

**Redis.** `RedisStore` proves that one flat store with prefixed keys refines a private store per
namespace over every interleaved run, and `RedisService` connects that to the client, server and
service code. **Errors** classifies messages, with `Quoting` for what %q prints, and composes that with
the client's own reading.

## What the proofs found

- INSERT text for an empty row, or for a row with an empty column name, is not a statement: the exact
  condition is `order != [] && "" !in order` (`SqlRoundTrip.InsertRoundTrip`). InsertData sends it
  anyway and reports the server's refusal; UpdateData refuses the empty row itself.
- Two namespaces are isolated exactly when neither `prefix:` extends the other
  (`RedisStore.IsolatedIffSeparate`); colon-free names always are, and `New` does not check for colons.
- A connection field survives exactly when it is non-empty (sslmode may be empty), has no white space
  or backslash and does not start with a quote (`ConnectionString.ConnectionStringRoundTrip`).
- The name of a temporary database is printed unquoted and unchecked. With plain configured fields the
  string reads back as the same six settings, in order, with only dbname changed, exactly when the name
  reads as one value (`ConnectionString.TemporaryDiffersInDatabaseOnly`). More names leave the configured
  settings in force, because the last setting of a keyword counts: `Endpoints.ConfiguredSettingsStay`
  says exactly which, `Endpoints.NameDecidesSettings` decides it by the name alone where the name ends in
  a value, and repeating the configured sslmode is an example (`Endpoints.SettingsCanBeRepeated`). The
  database of that very name on the configured server is reached exactly when the name is plain
  (`Endpoints.NamedDatabaseIsReached`), and a name such as `x host=h` leads to database x on another host
  (`Endpoints.NameCanSetTheHost`).
- An integer column survives the wire exactly when a float64 equals it (`Convert.IntegerSurvives`).
- docs/api.md gives INVALID_ARGUMENT for bad input, but an invalid database name is an INTERNAL error
  unless a classified phrase is in the name or in its quoted form, where a line feed before
  `ot found` is printed as `\not found` (`Errors.InvalidDatabaseNameStatus`, `Errors.RefusedNames`).
- The client's test for absence and the server's NOT_FOUND differ on some messages
  (`Errors.ReadingsDisagreeExactlyWhen` says on which), but on none that a Redis read can produce
  (`Errors.RedisReadingsAgree`).
- SelectData answers with as many rows as the limit and the table allow exactly if its cursor lost no
  record (`PostgresService.CursorRowsAreStoredRows`). It reports an error exactly if it got no cursor, so
  a failure to read the column names is none: a table with columns then has no rows in the answer
  (`PostgresService.PostgresService.SelectData`).
- GetValue reports TTL 0 when reading the TTL fails (`RedisService.Service.GetValue`).
- ExecuteQuery, where a reading query got its cursor, reports an error exactly if the column names could
  not be read, although the query has run (`PostgresService.PostgresService.ExecuteQuery`); a query that
  calls a function then has changed the database (`PostgresService.ErrorCanHaveEffect`).
- A handle whose start-up ping fails is never closed; the Redis client is kept even then
  (`Manager.Manager.constructor`, `Lifecycle.ShutdownClosesEverythingStored`).

## Model

| member | source | states |
|---|---|---|
| SqlBuilder.BuildInsert | internal/service/postgres.go:215-234 | Whatever order the map is iterated in, both texts and the values are those of one enumeration of the row's columns, each exactly once |
| SqlBuilder.BuildUpdate | internal/service/postgres.go:263-274 | The same for UPDATE, with the id as the last value |
| SqlRoundTrip.DelimitedRoundTrip | internal/service/postgres.go:329-332 | For every string the delimited-identifier reader undoes the quoting and stops at the closing quote, exactly when no quote follows |
| SqlRoundTrip.QuotingIsInjective | internal/service/postgres.go:329-332 | Different names have different quoted forms |
| SqlRoundTrip.InsertRoundTrip | internal/service/postgres.go:226-233 | The INSERT text parses to exactly the table, columns, placeholders 1..n and RETURNING clause that were meant; it parses at all exactly for a non-empty row without an empty column name |
| SqlRoundTrip.UpdateRoundTrip | internal/service/postgres.go:263-274 | The UPDATE text parses to the assignments with placeholders 1..n and the id at placeholder n+1; it fails exactly when a column name is empty |
| SqlRoundTrip.DeleteRoundTrip | internal/service/postgres.go:300-300 | The DELETE text parses to a deletion by id from exactly that table |
| SqlRoundTrip.SelectRoundTrip | internal/service/postgres.go:172-172 | The SELECT text parses to reading exactly that table up to placeholder 1 |
| SqlRoundTrip.ValidIsOneWord | internal/service/postgres.go:321-327 | A table name is valid exactly when the SQL lexer reads it as one regular word without a dollar sign |
| SqlSemantics.InsertRuns | internal/service/postgres.go:215-234 | Running the printed INSERT with the bound values, on any database and for any order, either fails or appends one row: the given values over the defaults; it fails exactly when the row does not fit the table |
| SqlSemantics.UpdateRuns | internal/service/postgres.go:263-281 | Running the printed UPDATE overlays the given values on exactly the rows whose old id equals the given one, and counts them |
| SqlSemantics.DeleteRuns | internal/service/postgres.go:300-306 | Running the printed DELETE removes exactly the rows of the id, keeping the others in order, and counts them |
| SqlSemantics.DeletionPartitions | internal/service/postgres.go:300-306 | Every row is kept or counted as deleted, and a row is kept, as often as it is stored, exactly when it does not have the id |
| SqlSemantics.OrderDoesNotMatter | internal/service/postgres.go:215-274 | Two iteration orders of one row have the same effect and reply on every database |
| SqlSemantics.FallbackInsertsTheSameRow | internal/service/postgres.go:226-241 | Where the first INSERT succeeds, the fallback without RETURNING leaves the same database |
| SqlSemantics.FallbackServesTablesWithoutId | internal/service/postgres.go:226-241 | On a table without an id column the first INSERT always fails, and the fallback runs exactly when the row fits |
| SqlSemantics.PrintedInsertIsRead | internal/service/postgres.go:226-241 | Whatever other SQL the server knows, it runs the printed INSERT as the intended insertion, and refuses it for an empty row |
| SqlSemantics.DeleteUndoesInsert | internal/service/postgres.go:199-307 | Deleting the id of a row just inserted under an unused id restores the database and affects one row |
| SqlSemantics.WithoutValuesOnlyOtherRuns | internal/service/postgres.go:145-145 | Text without bound values does something only if the router does not print its like and the server accepts it |
| SqlSemantics.DropRuns | internal/service/postgres.go:145-145 | DROP TABLE is such text: it removes the table if the server does so |
| SqlSemantics.RouterKeepsShape | internal/service/postgres.go:226-301 | Whatever the row and its iteration order, the INSERT, UPDATE and DELETE the router prints change only the named table, and leave every row with exactly its table's columns |
| SqlSemantics.InsertLeaves | internal/service/postgres.go:226-241 | An insertion succeeds exactly for a row the table can store; then only that table changes, its old rows stay in front, and the added row has the given value in every given column, the default in every other, with the id that is returned |
| SqlSemantics.UpdateLeaves | internal/service/postgres.go:273-281 | An update keeps the number and order of rows; in a row of the id every given column has the given value and every other its old one, any other row is unchanged, and the count is the number of rows of the id |
| SqlSemantics.DeleteLeaves | internal/service/postgres.go:300-306 | A deletion leaves exactly the rows at the positions without the id, in order, and counts the positions with it |
| SqlSemantics.OrderHasRowsSize | internal/service/postgres.go:219-224 | Every iteration order has exactly as many names as the row has columns |
| ConnectionString.ConnectionStringRoundTrip | internal/db/database.go:71-79 | The keyword/value reader recovers all six fields exactly when every field is plain |
| ConnectionString.TemporaryDiffersInDatabaseOnly | internal/db/database.go:106-127 | For any name at all, the temporary connection string reads back as the six settings of the default one, in order, with only dbname changed, exactly when the name is one value |
| ConnectionString.PrintedSettingsAreRead | internal/db/database.go:71-79 | The same for any list of settings, both directions |
| Text.FormatIntIsRead | internal/db/database.go:71-79 | The printed port is a minus sign for a negative number and the digits of its magnitude without leading zeros |
| Endpoints.NamedDatabaseIsReached | internal/db/database.go:106-127 | For any name at all: if it is one value, that database of the configured server is reached; the database of the name itself is reached exactly when the name is plain |
| Endpoints.NameCanSetTheHost | internal/db/database.go:116-125 | A name with a host setting of its own leads to that host, so it is not one value |
| Endpoints.ConfiguredSettingsStay | internal/db/database.go:106-127 | For any name at all, the other five settings that count are the configured ones exactly when the text from the name on sets none of the first four to anything else and leaves the configured sslmode in force |
| Endpoints.NameDecidesSettings | internal/db/database.go:106-127 | For a name that ends in a value the name alone decides that, and the database is the last one it names |
| Endpoints.SettingsCanBeRepeated | internal/db/database.go:116-125 | A name that repeats the configured sslmode is not one value and still leaves all five in force |
| FloatRounding.RoundIsNearest | internal/server/convert.go:41-46 | The converted integer is a float64 and no float64 is closer |
| FloatRounding.TiesToEven | internal/server/convert.go:41-46 | Of two equally close floats the one with the even significand is taken |
| FloatRounding.ExactIffFloat | internal/server/convert.go:41-46 | An integer is unchanged exactly when a float64 equals it |
| FloatRounding.ExactUpTo53Bits | internal/server/convert.go:41-46 | Every integer up to 2^53 in magnitude is unchanged, and 2^53 + 1 meets 2^53 |
| FloatRounding.RoundIsMonotone | internal/server/convert.go:41-46 | The conversion never swaps the order of two integers |
| FloatRounding.Int64Error | internal/server/convert.go:45-46 | Over all of int64 the error is at most half a unit in the last place, hence at most 512 |
| FloatRounding.ConversionArrives | internal/server/convert.go:41-46 | The float64 that the conversion gives, of any integer, is one with none closer, and with an even significand where another is as close |
| FloatRounding.ConversionError | internal/server/convert.go:45-46 | That float64 is within half a unit in the last place, and within 512, of any 64-bit integer |
| FloatRounding.ConversionKeepsOrder | internal/server/convert.go:41-46 | Of two integers the smaller never gives the greater float64 |
| Convert.RowToProtoFields | internal/server/convert.go:14-20 | The loop converts every column, for every iteration order |
| Convert.ProtoFieldsToRow | internal/server/convert.go:23-29 | The loop converts every field, for every iteration order |
| Convert.FromProtoValue | internal/server/convert.go:56-84 | The loops over nested structs and lists compute the tree conversion at any depth |
| Convert.WireRoundTrip | internal/server/convert.go:31-84 | Wire to native and back is the identity exactly on nulls, numbers, strings and booleans |
| Convert.NativeRoundTrip | internal/server/convert.go:31-84 | Native to wire and back is the identity exactly on nil, bool, float64 and string |
| Convert.PassReachesFixedPoint | internal/server/convert.go:14-29 | One row-to-wire-to-row pass keeps the columns and lands on a fixed point of the pass |
| Convert.IntegerSurvives | internal/server/convert.go:41-46 | An integer column is read back as the same number exactly when a float64 equals it, so always for int32 and up to 2^53 |
| Convert.IntegerArrives | internal/server/convert.go:41-46 | The number sent for any int or int64 column is the nearest float64, ties to even, within half a unit in the last place and within 512 |
| Convert.IntegersKeepOrder | internal/server/convert.go:45-46 | The numbers sent for two int64 columns are in the order of the columns |
| Convert.EveryKindTravels | internal/server/convert.go:31-84 | What a column of every kind is after the wire: bytes the string of the same characters, a float32 the same number, an int32 itself, an int64 the nearest float64, nested and foreign values their formatted text |
| Convert.RowsTravel | internal/server/convert.go:14-29 | The same for every column of a row, with no column lost or added |
| ClientValues.PackInsert | core/go/client.go:140-154 | PgInsert packs every column, for every iteration order |
| ClientValues.UnpackQuery | core/go/client.go:120-135 | PgQuery returns one map per row, in order, holding the string, number and boolean columns |
| ClientValues.InsertThenQuery | core/go/client.go:121-154 | PgInsert packing, server unpacking and repacking, and PgQuery unpacking compose to exactly the original keys with each value in its packed form |
| ClientValues.QueryDropsNulls | core/go/client.go:121-133 | Reading a row back loses exactly its NULL columns |
| ClientValues.QueryShowsColumns | core/go/client.go:120-135 | What PgQuery shows of a row: every column but the NULL ones, each as its kind travels |
| ClientValues.InsertedColumnsAreRead | core/go/client.go:121-154 | What PgQuery shows of inserted columns of each kind: strings, booleans and float64 unchanged, an int the nearest float64, anything else its formatted text |
| ClientValues.DocumentRoundTrip | core/go/client.go:170-180 | At every path of a document of any depth the server sees the same keys, list length, order and leaf as the client wrote, numbers widened to float64 and bytes as base64 text |
| ClientValues.RefusedForForeignValues | core/go/client.go:170-174 | A document is refused exactly when a foreign value is somewhere in it |
| ClientValues.IntegerLeafSurvives | internal/server/mongo_server.go:37-43 | An integer anywhere in a document keeps its value exactly when a float64 equals it |
| ClientValues.IntegerLeafArrives | internal/server/mongo_server.go:37-43 | Any integer leaf of a document arrives as the nearest float64, ties to even, within 512 |
| ClientValues.PackedDocumentIsSendable | core/go/client.go:170-174 | Every value at any depth of a packed document has a kind, so that it can be sent |
| Errors.KeyNotFoundStatus | internal/server/errors.go:20-29 | The worded missing key becomes NotFound with its message |
| Errors.EveryStatus | internal/server/errors.go:12-30 | Of every error the whole message is kept; the code is that of the first rule whose phrase, surrounded by anything, makes up the message |
| Errors.RedisGetOutcome | core/go/client.go:201-212 | For every outcome of the read: a failure on an enabled backend is the empty string without an error, a disabled backend is an Unavailable error |
| Errors.NotFoundReadsAsAbsent | core/go/client.go:204-208 | Every NotFound answer of the server is read as absence |
| Errors.ReadingsDisagreeExactlyWhen | core/go/client.go:204-208 | For every service error, the client reads absence where the server does not answer NotFound exactly when the lower-cased message says not found and the server classified it first or by letter case; never the other way |
| Errors.RedisReadingsAgree | internal/service/redis.go:47-60 | Every failure GetValue can answer is read by the client as the server classified it |
| Errors.InvalidIdIsBadInput | internal/service/mongo.go:91-94 | An invalid id is InvalidArgument whatever error it wraps |
| Errors.InvalidDatabaseNameStatus | internal/service/postgres.go:48-50 | The code for a refused name is decided by the phrases in the name, or by those a line feed completes in its quoted form; without any it is Internal |
| Errors.RefusedNames | internal/service/postgres.go:48-50 | Three names that are not valid, so refused, one for each of the three codes, two of them without any phrase |
| Errors.PhrasesAreRefused | internal/service/postgres.go:321-327 | A name that holds a phrase is never valid |
| Quoting.QuoteBodyHas | internal/service/postgres.go:49-49 | A phrase is in what %q prints exactly when it is in the string, or all but its first letter n follows a line feed there |
| Quoting.QuoteIsReadBack | internal/service/postgres.go:49-49 | A reader of Go string literals gets the quoted name back from what %q prints, wherever characters beyond ASCII print as themselves |
| RedisStore.KeysMeetIffNotSeparate | core/go/client.go:47-52 | Two namespaces can produce a common key exactly when one prefix extends the other |
| RedisStore.NamespacesAreIsolated | core/go/client.go:190-211 | Over every interleaved run of sets, gets, TTL reads, deletes and time steps with colon-free namespaces, each client is told what its own namespace's history predicts |
| RedisStore.IsolatedIffSeparate | core/go/client.go:190-211 | For names of any form, isolation over all runs holds exactly when neither prefix extends the other |
| RedisStore.TtlAfterWrite | internal/service/redis.go:40-59 | After a write and any run leaving the key alone, it is there exactly while its time lasts, a non-positive TTL never expires, and the reported TTL lies between 0 and the TTL set |
| RedisStore.RepliesAfterWrite | internal/service/redis.go:33-74 | After a write and any run leaving the key alone: a read answers the value written while its time lasts and a miss after, the TTL is the rest of that time to the nearest second, and a deletion tells which of the two it was |
| RedisStore.RepliesWithoutWrite | internal/service/redis.go:47-74 | A key that nobody has written is missing, has TTL 0, and deleting it reports nothing deleted |
| RedisStore.OtherEntriesStay | internal/service/redis.go:33-74 | A command changes no entry but that of its own key, and a read not even that |
| RedisStore.GoneAfterDelete | internal/service/redis.go:62-74 | After a delete and any run leaving the key alone, reads miss and a second delete reports nothing deleted |
| RedisService.DurationFits | internal/service/redis.go:40-43 | The nanosecond duration is the TTL and converts back exactly when it fits 64 bits, which every int32 does |
| RedisService.RunsKeepTtlsInRange | internal/server/redis_server.go:45-55 | Every run of router commands keeps every reported TTL within int32 |
| RedisService.Service.SetValue | internal/service/redis.go:33-45 | Fails exactly when the backend is disabled or the call faults, and then changes nothing; otherwise the entry holds the value and expires after ttl seconds exactly when ttl is positive |
| RedisService.Service.GetValue | internal/service/redis.go:47-60 | The value is that of the first read, the TTL that of the second, after whatever other clients did in between, or 0 if that read faults; a live key is found unless the first read faults, and any failure of it is a missing key |
| RedisService.Service.DeleteKey | internal/service/redis.go:62-74 | Removes exactly the entry of the key and tells whether it was there unexpired; fails exactly when the backend is disabled or the call faults |
| RedisService.Server.SetValue | internal/server/redis_server.go:33-43 | On every int32 TTL the store takes exactly the set command: the entry of the key holds the value, with ttl seconds to live exactly when ttl is positive; on an error none |
| RedisService.Server.GetValue | internal/server/redis_server.go:45-55 | Narrowing the TTL to int32 loses nothing on a store written by router commands; every failed read is NotFound, and a live key fails only on a fault |
| RedisService.Server.DeleteKey | internal/server/redis_server.go:57-63 | The delete command of the store: exactly the entry of the key is gone; an absent key is no error |
| RedisService.Client.New | core/go/client.go:42-58 | Fails exactly for the empty namespace or when there is no connection, and prefixes with the namespace and a colon |
| RedisService.Client.RedisSet | core/go/client.go:190-198 | On the shared store this is the namespaced command of the isolation theorem: the entry of namespace, colon and key holds the value and its time to live; it fails only on a fault or a disabled backend |
| RedisService.Client.RedisGet | core/go/client.go:201-212 | An error exactly when the backend is disabled; without faults exactly the value stored under namespace, colon and key if that entry is there unexpired, and otherwise the empty string; with a fault, that or the empty string |
| Lifecycle.RunInv | internal/service/postgres.go:93-307 | Every interleaved run keeps the ownership invariant |
| Lifecycle.ConnectionsAreSafe | internal/db/database.go:102-141 | In every reachable state each open temporary handle has one owner that is still running, nothing was closed twice, a cursor's handle is open, and the shared handles are open until Close |
| Lifecycle.RequestsOpenWhatTheyAskFor | internal/db/database.go:106-127 | In every reachable state an open temporary handle belongs to a valid request naming a database other than the default one, and a refused request has opened nothing |
| Lifecycle.FinishedLeavesNothing | internal/service/postgres.go:164-177 | A request that has returned has closed, once, every handle and cursor it opened |
| Lifecycle.StepsDoNotInterfere | internal/service/postgres.go:98-119 | No step of a request changes a handle or cursor another request or the process opened |
| Lifecycle.RequestRestoresConnections | internal/service/postgres.go:207-213 | A request run alone, whatever fails, leaves open handles and cursors as it found them |
| Requests.PathPerforms | internal/service/postgres.go:93-307 | Every path of a service method through connection and cursor is performed by the request's own steps in the state machine, whatever other requests there are |
| Requests.PerformedRestores | internal/service/postgres.go:207-213 | In every reachable state such a request leaves the open handles and cursors as it found them |
| Lifecycle.CloseStoredCloses | internal/db/database.go:174-187 | Close closes each stored handle once and nothing else |
| Lifecycle.ShutdownClosesEverythingStored | cmd/main.go:64-75 | The shared handles are closed only after every request has returned, and then exactly the handles whose start-up ping failed are open |
| Lifecycle.ShutdownCanComplete | cmd/main.go:64-75 | From every reachable state of a running router there is a way to drain, stop and close |
| Lifecycle.DrainingAdmitsNobody | cmd/main.go:64-75 | Once the router drains, no run admits another request |
| Manager.Manager.constructor | internal/db/database.go:37-68 | Whatever fails at start-up, every enabled backend is tried, in order and with its own connection string, every opened handle is pinged, and exactly the stored and the leaked handles are open, which is the start state of the lifecycle machine; Redis is stored whenever enabled; without faults every enabled backend is stored and nothing leaks |
| Manager.Manager.InitPostgres | internal/db/database.go:70-100 | Opens the configured database and pings what it opened; stores the handle exactly if opening and ping succeed, and leaves it open if only the ping fails |
| Manager.Manager.InitMongo | internal/db/database.go:143-158 | Connects and pings; stores the client exactly if both succeed, and leaves it open if only the ping fails |
| Manager.Manager.InitRedis | internal/db/database.go:160-171 | Pings the client and stores it whether it answered or not |
| Manager.Manager.GetPostgresConnection | internal/db/database.go:106-141 | The shared handle for the empty or default name, without dialing or pinging; otherwise a new, pinged handle connected to whatever the printed settings lead to; an error exactly when PostgreSQL is not enabled or something faults, with the open handles as before |
| Manager.Manager.Close | internal/db/database.go:174-187 | Performs the close of the lifecycle machine |
| RowAssembly.ScanRow | internal/service/postgres.go:136-139 | The row has exactly the columns' names, each with the value of the last column of that name |
| RowAssembly.AssembleRows | internal/service/postgres.go:126-141 | The rows are exactly the scannable records, in the cursor's order |
| RowAssembly.AssemblyIsUnique | internal/service/postgres.go:179-196 | That description determines the result |
| RowAssembly.ToResponse | internal/server/postgres_server.go:57-60 | Every row is packed in place, in order, and the count is the number of rows |
| QueryText.ClassificationIgnoresCaseAndBlanks | internal/service/postgres.go:105-112 | Neither letter case nor leading white space decides whether a query is run for its rows |
| QueryText.ReadingExactlyWhen | internal/service/postgres.go:105-112 | A query is run for its rows exactly when, after white space and before anything at all, it begins with SELECT, SHOW, WITH, TABLE or VALUES in any letter case |
| QueryText.SentText | internal/service/postgres.go:105-105 | The query is white space, the text that is sent, and white space; the sent text neither begins nor ends with any of the 25 white space characters |
| PostgresService.CursorRowsAreStoredRows | internal/service/postgres.go:179-196 | Rows assembled from any cursor over a table, whatever its column order and faults, are stored rows, none more often than stored, and as many as limit and table allow exactly if the cursor lost no record |
| PostgresService.LostColumnsHideEveryRow | internal/service/postgres.go:179-196 | If the column names cannot be read, the rows assembled from a table with columns are none |
| PostgresService.ColumnsCanBeLost | internal/service/postgres.go:179-179 | Every table has such a cursor, holding all the records that were to be answered |
| PostgresService.ErrorCanHaveEffect | internal/service/postgres.go:106-122 | Calling a function is a reading query; if it changes the database, the error for unreadable column names comes with a changed database |
| PostgresService.PostgresService.InsertData | internal/service/postgres.go:199-242 | On success one row more in the one table of the request's database, with the id reported for it, without faults exactly if the table has an id column; on an error nothing changed, and without faults the row did not fit the table; a refused request sends nothing, any other the printed INSERT, and the fallback only after it failed; its handles and cursors go through a run of the state machine; connections restored either way |
| PostgresService.PostgresService.UpdateData | internal/service/postgres.go:244-282 | On success the overlay by id and its count; the empty row is refused; on an error nothing changed, and without faults the update is impossible on that table; the printed UPDATE is sent once or not at all; connections restored either way, by a run of the state machine |
| PostgresService.PostgresService.DeleteData | internal/service/postgres.go:284-307 | On success the deletion by id and its count; on an error nothing changed, and without faults the deletion is impossible there; the printed DELETE is sent once or not at all; connections restored either way, by a run of the state machine |
| PostgresService.PostgresService.SelectData | internal/service/postgres.go:153-197 | Limits outside 1..10000 are refused; otherwise an error exactly if no cursor was opened, without faults only for a missing table; at most limit rows, each as stored and none more often, all there are exactly if the cursor lost no record; none, and no error, if the column names of a table with columns could not be read; cursor and handle closed on every path, by a run of the state machine |
| PostgresService.PostgresService.ExecuteQuery | internal/service/postgres.go:93-151 | Any text, trimmed, is sent once to the request's database and does there what the server makes of it, and nothing elsewhere; reading queries also return their cursor's rows and count, others the affected count; a reading query succeeds exactly if it got a cursor and its column names were read, and with a cursor it has run; other errors change nothing and, without faults, are the server's; connections restored either way, by a run of the state machine |
| PostgresServer.PostgresServer.InsertData | internal/server/postgres_server.go:90-107 | The row unpacked from the wire is inserted; the response holds an id exactly when it holds no message, and without faults the id exactly if the table has one; codes for a disabled backend and a bad table name; other errors without faults mean that the row does not fit |
| PostgresServer.PostgresServer.UpdateData | internal/server/postgres_server.go:109-121 | The row unpacked from the wire is laid over the rows of the id; empty data and bad table names are InvalidArgument |
| PostgresServer.PostgresServer.DeleteData | internal/server/postgres_server.go:123-134 | Exactly the rows of the id are removed and counted, with the codes of a refusal |
| PostgresServer.PostgresServer.SelectData | internal/server/postgres_server.go:68-88 | An omitted limit is taken as 100; the response packs and counts the selected rows in order; an error exactly if no cursor was opened; codes for a disabled backend, a bad table name and a bad limit |
| PostgresServer.PostgresServer.ExecuteQuery | internal/server/postgres_server.go:47-66 | The text is sent once; packed rows and their count for a reading query, the affected count and a message for any other; a reading query succeeds exactly if it got a cursor and its column names were read |

## Left out

- gRPC transport, generated stubs and the thin SDK clients: no logic of their own.
- Vault, certificates, TLS and configuration loading: I/O and foreign calls.
- Health checks and the list calls: single-branch code that adds only easy members.
- Timeouts, pool sizing, reconnects, and the drivers' own second close of an exhausted cursor: drivers are nondeterministic components with stated contracts.
- A failed statement is assumed to have no effect, and sequences behind column defaults do not advance.
- Casts on assignment: a table stores the value it is given; comparison by id goes through a parameter.
- SqlSyntax.Lex: reads the lexical subset the router prints; string constants, numbers, comments and operators are outside it, as are identifier truncation, NUL characters and non-ASCII case folding.
- Text.ToUpper: a character whose upper case is not an ASCII letter stays as it is, which no test for a keyword can tell.
- SqlSemantics.Serve: the effect of SQL outside the subset is a function of the text and the database, given as a parameter; the rows that such a query returns are whatever its cursor gives.
- Endpoints.EndpointOf: user and password decide whether a connection opens, which is left to the driver's failures.
- FloatRounding.Round: the exponent range is unbounded, which no 64-bit integer reaches.
- ClientValues.Pack: structpb.NewStruct is not part of this repository; base64 is a parameter, and its UTF-8 check and the number types beyond int, int32 and int64 are not modelled.
- fmt's %v is a parameter of the conversions, so the text of nested values is not described.
- Lifecycle.Apply: the closing of the three shared handles is one step, and the row cursor inside an INSERT with RETURNING, which the driver closes while scanning, is not a cursor of its own.
- MongoDB operations appear in the lifecycle machine only; their documents are covered by the conversions, and the identifier text that InsertDocument returns is not described.
- The clients in other languages, deployment scripts and infrastructure.
