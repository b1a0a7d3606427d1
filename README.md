# backoffice: the SQL engine, the session and user handlers, and the bearer check

This project models the core of influx6/backoffice in Dafny and proves properties of the model. The core has five parts:

- **The SQL engine** (`db/sql/sql.go`). It turns records into SQL statements: `printLiteral`, the ORDER BY direction, the page window of `GetAllPerPage`, and the INSERT and SET lists. It also holds the one-shot migration latch `inited` and the CRUD operations `Save`, `Update`, `Get`, `GetAll`, `GetAllPerPage`, `Count` and `Delete`.
- **The session handler** (`handlers/sessions.go`). `Create` reuses a live session, drops a stale one and otherwise saves a new one. It also has `Get`, `Delete` and `GetAll`.
- **The user handler** (`handlers/users.go`). `Delete`, `Get`, `GetByEmail`, `GetAll`, `Create`, `UpdatePassword` and `Update`, with an optional profile store consulted after the users table.
- **The bearer check** (`handlers/auth.go` and `utils/utils.go`). `ParseAuthorization` splits the header, then `CheckAuthorization` runs its chain of checks.
- **The migration list** (`migrations/sqltables/tables.go`). `BasicTables` is the constant list of three migrations.

## How the model is built

- **Values.** Go's `map[string]interface{}` records become `map<string, Value>` over a closed union of the dynamic types the engine handles (`Values`).
- **The database.** It is a value (`Store.Backend`): named tables of rows, whether a connection opens, the tables whose statements it refuses, the tables whose writes (INSERT, UPDATE, DELETE) it refuses while still serving reads, and the log of every statement sent. `Store.Run` gives each statement of the templates at `db/sql/sql.go:18-26` its meaning.
- **Spec functions and classes.** Every stateful operation is a pure specification function over the state (`Engine.GetSpec`, `Sessions.CreateSpec`, `Users.UpdatePasswordSpec`, ...). A class method changes the object's fields step by step and is proved equal to that function: `Engine.SQL`, `Sessions.Sessions`, `Users.Users` and `Auth.BearerAuth`. The properties are lemmas about the functions. They live in `EngineProps`, `SessionProps`, `UserProps` and `AuthProps`.
- **Outside inputs.** Clock reads, generated ids and the order a Go map is walked in are parameters. The methods return the walk order as a ghost out-parameter, which is an enumeration of the map's keys. So every property about INSERT and SET holds for every order.
- **Errors.** Go's `error` is `Outcome` (`Pass` or `Fail(e)`), and `(T, error)` is `Result<T>`. Each error the code creates has its own constructor in `Wrappers.Error`.

Some behaviours of the code are easy to misread. The model keeps them as written:

- **Update and `updated_at`.** `Update` puts `updated_at` in SET except when the index key is `updated_at` itself. The timestamp is written into the fields before the index key is deleted from them (`db/sql/sql.go:157,180`). `EngineProps.UpdateAssignments` states this exception.
- **Update with nothing to SET.** When the index key is `updated_at` and the record has no other field, as in `Update(t, {}, "updated_at")`, the stamped timestamp is deleted again as the index (`db/sql/sql.go:157,180`). `setValues` then gives `""`, and Go sends `UPDATE t SET  WHERE updated_at=...`, which the server refuses (`db/sql/sql.go:182,193`). `EngineProps.UpdateEmptySetRefused` states that Update returns the refusal.
- **The -1 total.** Not every error path of `GetAllPerPage` reports a total of -1. When it delegates to `GetAll` (page and page size both non-positive), an error reports `len(nil)`, which is 0 (`db/sql/sql.go:225-228`). `EngineProps.PerPageTotals` states both cases.
- **A session expiring now.** When a session's expiry equals the clock read, `Sessions.Create` neither reuses nor deletes it, and saves a second session for the same user. `SessionProps.CreateAtBoundaryKeepsOld` proves that.
- **The page window.** The window of `GetAllPerPage` is modelled as written: for page 2 and later, `perPage * page` rows from offset `perPage * page / 2 + 1`; for page 1 or less with a positive page size, `perPage` rows from offset 0; for page 1 or less with a non-positive page size, `perPage * page` rows from offset `perPage * page / 2`, with no `+ 1` (`db/sql/sql.go:245-257`). With two rows per page the third row lies on no page (`Query.ThirdRowOnNoPage`). The product is a Go int, so it wraps modulo 2^64: large page numbers give small or negative windows (`Query.WrappedWindows`, `EngineProps.PerPageWrappedLimit`).

## Model

| member | source | states |
|---|---|---|
| `Literal.PrintLiteral` | db/sql/sql.go:604-621 | printLiteral, case by case; its meaning is stated by the lemmas below (which values print, and how each literal reads back) |
| `Literal.LiteralDefined` | db/sql/sql.go:604-621 | printLiteral succeeds exactly for int, string, `[]byte`, time and byte; nil and every other dynamic type fail with "Not basic type" |
| `Literal.IntLiteral` | db/sql/sql.go:606-607 | an int's literal is decimal text that reads back as that int |
| `Literal.StringLiteral` | db/sql/sql.go:610-613 | a string's literal unquotes to the string; the UTF-8 bytes of a string, `[]byte(s)`, have the same literal as `s` |
| `Literal.ByteAndTimeLiterals` | db/sql/sql.go:614-617 | a byte's literal reads back, as a rune literal, as the rune of that byte; a time's literal unquotes to its String() |
| `Literal.ByteLiteralInjective` | db/sql/sql.go:616-617 | distinct bytes have distinct literals |
| `Literal.LiteralShape` | db/sql/sql.go:604-621 | the first character of a literal tells its kind (digit or `-` for int, `'` for byte, `"` for quoted kinds) |
| `Literal.StringLiteralInjective` | db/sql/sql.go:610-611 | distinct strings have distinct literals, so a WHERE on a string literal selects by that string |
| `Literal.IntLiteralInjective` | db/sql/sql.go:606-607 | distinct ints have distinct literals |
| `Literal.NaturalizeKeepsLiteral` | db/sql/sql.go:561-576 | naturalizing a value does not change its literal |
| `Text.ToLowerEquals` | db/sql/sql.go:236 | `ToLower(s) == t` holds exactly when `s` equals `t` up to ASCII letter case; for the texts "asc", "dsc" and "desc" that the switch compares with, this is what `strings.ToLower(s) == t` decides |
| `Text.DecimalRoundTrip` | db/sql/sql.go:607 | the text strconv.Itoa gives reads back as the integer |
| `Text.DecimalInjective` | db/sql/sql.go:607 | distinct integers have distinct decimal texts |
| `Text.Quote` | db/sql/sql.go:611 | a quoted text starts and ends with `"` |
| `Text.UnquoteQuote` | db/sql/sql.go:611 | quoted text unquotes back to the string |
| `Text.QuoteInjective` | db/sql/sql.go:611 | distinct strings have distinct quoted texts |
| `Text.QuoteRune` | db/sql/sql.go:617 | strconv.QuoteRune of a byte's rune: `'` and `\` escaped, printable runes as they are, the C escapes, `\xHH` for other controls and DEL, `\u00HH` for the other Latin-1 codes, between single quotes |
| `Text.HexDigit` | db/sql/sql.go:617 | the lower-case hex digit strconv writes reads back as its value |
| `Text.UnquoteQuoteRune` | db/sql/sql.go:617 | every quoted byte rune reads back as the rune |
| `Text.QuoteRuneInjective` | db/sql/sql.go:617 | distinct byte runes have distinct quoted texts |
| `Text.QuoteRuneExamples` | db/sql/sql.go:617 | a newline gives `'\n'`, NUL `'\x00'`, U+00A0 `'\u00a0'`, `A` `'A'` and a quote `'\''` |
| `Values.BytesToString` | db/sql/sql.go:567 | `string(b)` as Go's UTF-8 decoder reads it: each well-formed sequence gives its character, each other byte U+FFFD; its properties are DecodeEncode, AsciiBytes and BytesToStringExamples |
| `Values.SequenceLength` | db/sql/sql.go:567 | the length of the well-formed UTF-8 sequence utf8.DecodeRune accepts at the head of the bytes, at most 4 and 1 for an ASCII byte |
| `Values.EncodeCharDecodes` | db/sql/sql.go:567 | the UTF-8 encoding of a character is one well-formed sequence that decodes back to it |
| `Values.DecodeEncode` | db/sql/sql.go:567 | `string([]byte(s)) == s`: the UTF-8 bytes of a string read back as the string |
| `Values.AsciiBytes` | db/sql/sql.go:567 | ASCII bytes read as one character per byte, with that byte's code |
| `Values.BytesToStringExamples` | db/sql/sql.go:567 | C3 A9 reads as "é"; a lone A9 or C3 reads as U+FFFD |
| `Values.Naturalize` | db/sql/sql.go:565-572 | a `[]byte` value becomes the string Go's `string(rv)` holds, decoded as above; every other value is unchanged; no `[]byte` is left |
| `Values.Naturalized` | db/sql/sql.go:561-576 | naturalizeMap keeps exactly the key set and naturalizes each value |
| `Values.NaturalizeAll` | db/sql/sql.go:287-301 | the rows loop keeps the number and order of rows and naturalizes each one |
| `Values.NaturalizedIdempotent` | db/sql/sql.go:561-576 | naturalizing twice is naturalizing once |
| `Values.DecodeAll` | handlers/users.go:156-168 | a listing decodes to one value per record, each from the record in the same place, or fails with the error of the first record that does not decode |
| `Values.DecodeAllFailsEarly` | handlers/sessions.go:113-125 | once a prefix of the records fails to decode, the whole listing fails with that error |
| `Values.DecodeEach` | handlers/sessions.go:113-125 | the record loop of both GetAll handlers computes DecodeAll, returning at the first failure |
| `Query.NormalizeOrder` | db/sql/sql.go:236-243 | the switch on `strings.ToLower(order)`; its meaning is NormalizeOrderSpec |
| `Query.NormalizeOrderSpec` | db/sql/sql.go:236-243 | the direction is ASC or DESC, and DESC exactly when the argument is "dsc" or "desc" up to case, so any other text gives ASC |
| `Query.NormalizeOrderIdempotent` | db/sql/sql.go:321-328 | normalising a normalised direction changes nothing |
| `Query.NormalizeOrderExamples` | db/sql/sql.go:321-328 | "asc" gives ASC; "DeSc" and "Dsc" give DESC; "sideways" and "" give ASC |
| `Query.Half` | db/sql/sql.go:252 | Go's `/ 2` truncates toward zero, for negative operands too |
| `Query.Wrap` | db/sql/sql.go:251 | Go's 64-bit int arithmetic: the result lies in the int range, equals the exact value when that fits, and differs from it by a multiple of 2^64 |
| `Query.PageWindow` | db/sql/sql.go:245-257 | the LIMIT and OFFSET of GetAllPerPage, with the product `responsePerPage * page` wrapped as a Go int; its meaning is stated by the window lemmas below |
| `Query.LaterPageWindow` | db/sql/sql.go:245-257 | for page > 1 whose product fits in a Go int, the window asks for page * perPage rows and starts one past half of that, beyond the first page |
| `Query.NonPositivePerPageWindow` | db/sql/sql.go:250-257 | a non-positive page size whose product fits in a Go int gives a non-positive LIMIT |
| `Query.ThirdRowOnNoPage` | db/sql/sql.go:245-257 | with two rows per page no page's window covers the row at offset 2, wrapped products included |
| `Query.WrappedWindows` | db/sql/sql.go:251-257 | page 2^62 + 1 with 4 rows per page wraps to LIMIT 4 OFFSET 3; page 2^62 with 3 rows per page wraps to a negative LIMIT |
| `Query.SecondPageOfTwo` | db/sql/sql.go:245-257 | page 2 of 2 rows is LIMIT 4 OFFSET 3 |
| `Query.Repeat` | db/sql/sql.go:520-522 | `n` copies of the marker, none for non-positive `n` |
| `Query.FieldMarkers` | db/sql/sql.go:517-525 | fieldMarkers returns the parenthesised, comma-joined list of `total` markers |
| `Query.MarkerCount` | db/sql/sql.go:517-525 | the marker text for `n` names holds exactly `n` `?` markers |
| `Query.JoinMarksCount` | db/sql/sql.go:524 | joining `k` markers with commas gives exactly `k` markers |
| `Query.EnumeratesSpec` | db/sql/sql.go:592-600 | a walk of a map's keys is a duplicate-free list of exactly those keys, and every such list is one |
| `Query.DistinctEnumerates` | db/sql/sql.go:592-600 | a duplicate-free list of exactly the keys is a walk of them |
| `Query.Enumeration` | db/sql/sql.go:595 | every key set has a walk |
| `Query.TakeKey` | db/sql/sql.go:595-597 | taking one more key in a range loop keeps the walk an enumeration |
| `Query.FieldNames` | db/sql/sql.go:592-600 | fieldNames lists every key of the record exactly once, in some order |
| `Query.FieldValuesOf` | db/sql/sql.go:535-543 | one value per name, in the names' order; a missing name reads as nil |
| `Query.FieldValues` | db/sql/sql.go:535-543 | the fieldValues loop pairs each name with its value, position by position |
| `Query.FieldValuesOfKeys` | db/sql/sql.go:108-110 | listing the values of the record's own names loses no field: each value is the record's |
| `Query.Assignments` | db/sql/sql.go:548-555 | one `name=literal` assignment per walked key |
| `Query.SetClause` | db/sql/sql.go:545-558 | the SET text setValues builds for a walk of the keys, or the error of the first value with no literal; its meaning is SetClauseFails and SetClauseSingle |
| `Query.SetValues` | db/sql/sql.go:545-558 | setValues walks the keys in some order and gives the comma-joined assignments, or the error of a value with no literal |
| `Query.SetClauseFails` | db/sql/sql.go:549-552 | the SET clause fails exactly when some value has no literal, and the error is "Not basic type" |
| `Query.SetClauseSingle` | db/sql/sql.go:545-558 | the SET clause of one field is that field's `name=literal` |
| `Query.NaturalizeMap` | db/sql/sql.go:561-576 | the naturalizeMap loop builds exactly the naturalized record |
| `Query.MarkersText` | db/sql/sql.go:517-525 | the `(?,...,?)` text of fieldMarkers; MarkerCount states that it holds exactly `total` markers (none for `total <= 0`) |
| `Query.FieldNameMarkers` | db/sql/sql.go:529-531 | the `(name, ..., name)` text of fieldNameMarkers: the names joined with `, ` in parentheses |
| `Query.StatementText` | db/sql/sql.go:18-26 | the text each of the seven templates gives for a statement, plus the CREATE stand-in for the migration's rendering; InsertMarkers states the marker count of the INSERT |
| `Query.InsertMarkers` | db/sql/sql.go:118 | the whole INSERT text holds exactly `|names|` more `?` than the table and column names do: the VALUES list has one marker per column |
| `Store.MatchingRows` | db/sql/sql.go:22 | `WHERE key=literal` selects exactly the rows whose key prints as the literal, in table order |
| `Store.RemoveMatching` | db/sql/sql.go:25 | `DELETE ... WHERE key=literal` keeps exactly the rows that do not match |
| `Store.AssignMatching` | db/sql/sql.go:24 | `UPDATE ... SET ... WHERE key=literal` applies the assignments to each matching row and keeps every other row |
| `Store.SortRowsSpec` | db/sql/sql.go:20 | `ORDER BY col ASC/DESC` keeps every row once and orders them in that direction |
| `Store.Slice` | db/sql/sql.go:21 | `LIMIT lim OFFSET off` gives at most `lim` rows, none past the end |
| `Store.RecordOf` | db/sql/sql.go:23 | the stored row of an INSERT has exactly the named columns |
| `Store.RecordOfSpec` | db/sql/sql.go:23 | each named column of an INSERT holds the value in the same position |
| `Store.RunSpec` | db/sql/sql.go:18-26 | every statement is logged; connectivity and both kinds of refusal never change; only writes change existing rows; a refusal changes no rows |
| `Store.Run` | db/sql/sql.go:18-26 | the meaning of each statement template on the database: the rows a SELECT returns, the row an INSERT appends, the rows an UPDATE or DELETE touches, and which statements are refused; RunSpec, InsertAppends and DeleteRemovesMatching state it |
| `Store.RunCreate` | db/sql/sql.go:18-26 | a CREATE TABLE adds the table when it is missing and keeps an existing one; CreateStep states it |
| `Store.InsertAppends` | db/sql/sql.go:23 | an accepted INSERT appends exactly the row its names and values spell |
| `Store.DeleteRemovesMatching` | db/sql/sql.go:25 | a DELETE leaves no matching row and keeps every other row |
| `Schema.BasicTables` | migrations/sqltables/tables.go:9-115 | the constant list of migrations; its shape is stated by the lemmas below |
| `Schema.BasicTablesOrder` | migrations/sqltables/tables.go:9-115 | exactly three migrations: profiles, sessions, users, in that order |
| `Schema.BasicTablesWellFormed` | migrations/sqltables/tables.go:12-112 | every table is timestamped, has exactly one primary key, `public_id`, and distinct non-null fields, and indexes only its own fields; users has no index |
| `Schema.IndexedTableWellFormed` | migrations/sqltables/tables.go:12-83 | the profiles and sessions shape (user_id first, public_id third) gives a single public_id key and declared indexes |
| `Schema.UsersWellFormed` | migrations/sqltables/tables.go:85-112 | the users shape gives a single public_id key and no index |
| `Schema.SessionsFields` | migrations/sqltables/tables.go:60-82 | the sessions fields are user_id, token, public_id and expires, in that order |
| `Engine.MigrateTables` | db/sql/sql.go:70-81 | the CREATE loop of migrate, stopping at the first refusal; MigrateTablesAccepts, MigrateTablesStop and MigrateTablesCreate state what it does |
| `Engine.MigrateSpec` | db/sql/sql.go:54-85 | migrate with its latch; MigrateLatch states the three cases |
| `Engine.OpenSpec` | db/sql/sql.go:92-99 | migrate, then open a connection; OpenSpecFacts states when it succeeds |
| `Engine.SaveStatement` | db/sql/sql.go:108-118 | the INSERT Save builds: the walked field names then created_at and updated_at, each with its value in place; SaveInsertShape and SaveRecord state its meaning |
| `Engine.SaveSpec` | db/sql/sql.go:89-131 | Save; SaveWrites, SaveAppends and SaveThenGet state what it writes and what a Get then finds |
| `Engine.UpdateSpec` | db/sql/sql.go:137-204 | Update; UpdateIndexMissing, UpdateWrites, UpdateApplies and UpdateEmptySetRefused state its failure, its one UPDATE and its effect on the rows |
| `Engine.Stamped` | db/sql/sql.go:157 | the record with `updated_at` set to the clock read; UpdateAssignments states what then goes into SET |
| `Engine.GetSpec` | db/sql/sql.go:363-431 | Get; GetLiteralFirst, GetReturnsRow and GetReadOnly state its failure, that it returns a matching row, and that it only reads |
| `Engine.GetAllSpec` | db/sql/sql.go:307-360 | GetAll; GetAllOrdered states that it returns every row once, ordered and naturalized |
| `Engine.CountSpec` | db/sql/sql.go:434-465 | Count; CountRowsOf states that it is the table's row count |
| `Engine.GetAllPerPageSpec` | db/sql/sql.go:207-304 | GetAllPerPage; PerPageTotals, PerPagePastEnd, PerPageWindowRows and PerPageWrappedLimit state its paths |
| `Engine.DeleteSpec` | db/sql/sql.go:468-513 | Delete; DeleteWrites, DeleteThenGet and DeleteRefused state its one DELETE and its effect |
| `Engine.SQL.constructor` | db/sql/sql.go:44-50 | New starts with the latch unset |
| `Engine.SQL.Exec` | db/sql/sql.go:76 | a statement sent changes the database as Run says, and nothing else |
| `Engine.SQL.Migrate` | db/sql/sql.go:54-85 | migrate, loop and latch included, computes MigrateSpec |
| `Engine.SQL.Open` | db/sql/sql.go:92-99 | migrate, then open a connection |
| `Engine.SQL.Save` | db/sql/sql.go:89-131 | Save computes SaveSpec for the order fieldNames walked the record in |
| `Engine.SQL.Update` | db/sql/sql.go:137-204 | Update, map edits included, computes UpdateSpec for the order setValues walked in |
| `Engine.SQL.Get` | db/sql/sql.go:363-431 | Get computes GetSpec |
| `Engine.SQL.NaturalizeRows` | db/sql/sql.go:345-357 | the rows loop naturalizes every row, in order |
| `Engine.SQL.GetAll` | db/sql/sql.go:307-360 | GetAll computes GetAllSpec |
| `Engine.SQL.Count` | db/sql/sql.go:434-465 | Count computes CountSpec |
| `Engine.SQL.GetAllPerPage` | db/sql/sql.go:207-304 | GetAllPerPage computes GetAllPerPageSpec |
| `Engine.SQL.Delete` | db/sql/sql.go:468-513 | Delete computes DeleteSpec |
| `EngineProps.Creates` | db/sql/sql.go:70-80 | one CREATE per migration, in list order: the statements MigrateTablesSucceed, MigrateTablesStopLog and MigrationOrder say the loop sends |
| `EngineProps.CreatesSpec` | db/sql/sql.go:70-80 | the i-th CREATE is for the i-th migration's table (the element-wise reading of Creates those lemmas index into) |
| `EngineProps.CreateStep` | db/sql/sql.go:76 | a CREATE only reads rows, succeeds unless the table is refused, and leaves the table in place |
| `EngineProps.AcceptsTail` | db/sql/sql.go:70-80 | the database accepts a list of migrations exactly when it accepts the first and the rest |
| `EngineProps.MigrateTablesAccepts` | db/sql/sql.go:70-80 | the migrations all succeed exactly when the database accepts every one; running them only reads |
| `EngineProps.MigrateTablesSucceed` | db/sql/sql.go:70-80 | when all are accepted, the CREATE statements go out in list order |
| `EngineProps.MigrateTablesCreate` | db/sql/sql.go:70-80 | when all are accepted, every migration's table exists afterwards |
| `EngineProps.MigrateTablesStop` | db/sql/sql.go:76-79 | the first refused migration ends the run with its refusal |
| `EngineProps.MigrateTablesStopLog` | db/sql/sql.go:76-79 | CREATE statements go out up to and including the refused one, and no later one |
| `EngineProps.MigrateLatch` | db/sql/sql.go:54-85 | no provider or a set latch makes migrate a no-op; a failure leaves the latch unset; the latch is set exactly when a connection opens and every migration is accepted; only reads |
| `EngineProps.MigrationOrder` | db/sql/sql.go:70-82 | one migration run sends exactly the CREATE statements in list order and creates every table |
| `EngineProps.OpenSpecFacts` | db/sql/sql.go:92-99 | the common start succeeds exactly when a connection opens and the latch is or gets set; it only reads |
| `EngineProps.ReadOnlyOpen` | db/sql/sql.go:59-61 | after reads only, an engine that connected still connects |
| `EngineProps.ReadStep` | db/sql/sql.go:18-26 | a statement that is not a write preserves the database |
| `EngineProps.GetReadOnly` | db/sql/sql.go:363-431 | Get only reads |
| `EngineProps.GetAllReadOnly` | db/sql/sql.go:307-360 | GetAll only reads |
| `EngineProps.CountReadOnly` | db/sql/sql.go:434-465 | Count only reads |
| `EngineProps.GetAllPerPageReadOnly` | db/sql/sql.go:207-304 | GetAllPerPage only reads |
| `EngineProps.PerPageWindowReadOnly` | db/sql/sql.go:231-283 | the counting and window path only reads |
| `EngineProps.CountRowsOf` | db/sql/sql.go:450-464 | Count gives the number of rows of a table the database serves |
| `EngineProps.SaveInsertShape` | db/sql/sql.go:108-118 | the INSERT names the record's fields then created_at and updated_at, with each field's own value in the same position and one marker per name |
| `EngineProps.SaveWrites` | db/sql/sql.go:89-131 | Save writes nothing before it connects, and then exactly its INSERT |
| `EngineProps.RecordOfValues` | db/sql/sql.go:108-110 | storing fieldValues of the walked names gives back the record |
| `EngineProps.RecordOfSnoc` | db/sql/sql.go:112-116 | appending a column to the INSERT adds that column to the stored row |
| `EngineProps.SaveNamesDistinct` | db/sql/sql.go:112-113 | the INSERT columns are distinct when the record holds no timestamp field |
| `EngineProps.SaveRecord` | db/sql/sql.go:108-118 | the stored row is the record with both timestamps |
| `EngineProps.SaveAppends` | db/sql/sql.go:89-131 | a Save to a served table appends the record with both timestamps, so Count grows by one |
| `EngineProps.SaveThenGet` | db/sql/sql.go:89-131 | saving and then getting by a field no earlier row matches gives back the saved record with its timestamps, naturalized |
| `EngineProps.SaveFacts` | db/sql/sql.go:89-131 | after a Save that succeeds the engine still connects and the table is still served |
| `EngineProps.UpdateIndexMissing` | db/sql/sql.go:160-168 | a missing index key fails Update after connecting, before any statement |
| `EngineProps.UpdateAssignments` | db/sql/sql.go:156-182 | the SET assignments are every stamped field but the index key; updated_at is among them unless it is the index key |
| `EngineProps.UpdateWrites` | db/sql/sql.go:137-204 | whatever Update writes is one UPDATE with those assignments, addressed by the index key and its literal |
| `EngineProps.UpdateApplies` | db/sql/sql.go:137-204 | on a served table, with at least one field left to SET, Update succeeds, assigns every matching row and keeps every other row |
| `EngineProps.UpdateEmptySetRefused` | db/sql/sql.go:157-193 | `Update(t, {}, "updated_at")` sends an UPDATE with an empty SET, which the server refuses; Update returns that refusal and no row changes |
| `EngineProps.GetLiteralFirst` | db/sql/sql.go:381-388 | an index value with no literal fails Get before any query |
| `EngineProps.GetFirstMatch` | db/sql/sql.go:390-420 | Get gives the first matching row, naturalized, and no rows when none matches |
| `EngineProps.GetReturnsRow` | db/sql/sql.go:390-420 | whatever Get returns is the naturalized form of a matching row |
| `EngineProps.GetStringKey` | db/sql/sql.go:381-420 | a row found by a string holds exactly that string under the index |
| `EngineProps.DeleteThenGet` | db/sql/sql.go:468-513 | after a Delete succeeds no row matches, every other row remains, and a Get by the same index finds nothing |
| `EngineProps.DeleteWrites` | db/sql/sql.go:491-510 | Delete writes exactly its DELETE, and only once it connects and the value has a literal |
| `EngineProps.DeleteKeepsOpen` | db/sql/sql.go:468-513 | after a Delete the engine still connects and every table is still there |
| `EngineProps.DeleteLiteralFirst` | db/sql/sql.go:491-498 | a value with no literal fails Delete before any statement |
| `EngineProps.DeleteRefused` | db/sql/sql.go:500-510 | a DELETE the database refuses makes Delete return that error, and no row changes |
| `EngineProps.GetAllOrdered` | db/sql/sql.go:321-359 | GetAll returns every row once, ordered in the normalised direction, naturalized |
| `EngineProps.PerPageTotals` | db/sql/sql.go:225-303 | delegating to GetAll reports the number of rows (0 on error); on every other path the total is -1 exactly on error |
| `EngineProps.PerPagePastEnd` | db/sql/sql.go:267-270 | a window past the total gives no records with the true total and no error |
| `EngineProps.PerPageWindowRows` | db/sql/sql.go:231-303 | otherwise the page holds the window of the ordered, naturalized rows with the table's row count |
| `EngineProps.PerPageNegativeLimit` | db/sql/sql.go:247-283 | page size -1 with page 1 or more gives a negative LIMIT, which the database refuses: total -1 |
| `EngineProps.PerPageWrappedLimit` | db/sql/sql.go:251-283 | page 2^62 with 3 rows per page wraps to a negative LIMIT; the database refuses it and the total is -1 with that refusal |
| `Sessions.GetSessionSpec` | handlers/sessions.go:136-150 | Get: the engine's Get by user_id, decoded; GetSessionOwned and GetSessionReadOnly state its meaning |
| `Sessions.Live` | handlers/sessions.go:60 | a session with an expiry that is still ahead; CreateReusesLive states that it is returned |
| `Sessions.Stale` | handlers/sessions.go:65 | a session with no expiry or one already past; CreateReplacesStale states that it is dropped |
| `Sessions.DropStaleSpec` | handlers/sessions.go:65-71 | a stale session is deleted by user_id, anything else is left; StaleDropWrites and CreateDeleteFails state it |
| `Sessions.SaveSessionSpec` | handlers/sessions.go:76-81 | the save of the minted session, returning it or the save's error; SaveSessionAppends and SaveSessionThenGet state it |
| `Sessions.CreateSpec` | handlers/sessions.go:46-84 | Create: reuse a live session, drop a stale one, then mint and save; the Create lemmas of SessionProps state each path |
| `Sessions.ListSpec` | handlers/sessions.go:96-133 | GetAll: the paged listing decoded record by record; ListFacts states its meaning |
| `Sessions.Sessions.constructor` | handlers/sessions.go:28-35 | the handler holds the engine, the table and the session lifetime |
| `Sessions.Sessions.Create` | handlers/sessions.go:46-84 | Create, step by step, computes CreateSpec |
| `Sessions.Sessions.Get` | handlers/sessions.go:136-150 | Get computes GetSessionSpec |
| `Sessions.Sessions.Delete` | handlers/sessions.go:153-165 | Delete is the engine's Delete by user_id with the user id |
| `Sessions.Sessions.GetAll` | handlers/sessions.go:96-133 | GetAll, record loop included, computes ListSpec |
| `SessionProps.DecodeSessionFields` | handlers/sessions.go:57 | WithFields reads back the session Fields() wrote, whatever other fields the row holds |
| `SessionProps.DecodeStored` | handlers/sessions.go:78 | the row Save stores for a session, as Get hands it back, decodes to the session |
| `SessionProps.GetSessionReadOnly` | handlers/sessions.go:144 | the session lookup only reads |
| `SessionProps.GetSessionOwned` | handlers/sessions.go:144-149 | a session found belongs to the user asked for, and its table exists and is served |
| `SessionProps.CreateReusesLive` | handlers/sessions.go:57-62 | a live session found is returned unchanged, and nothing is written |
| `SessionProps.CreateReplacesStale` | handlers/sessions.go:65-81 | a stale session is deleted and then a new one saved: those two writes, in that order |
| `SessionProps.CreateAfterDrop` | handlers/sessions.go:65-78 | after the stale session is dropped, what is left of Create is saving the new one |
| `SessionProps.StaleDropWrites` | handlers/sessions.go:68 | the DELETE writes exactly itself and the engine still connects |
| `SessionProps.CreateDeleteFails` | handlers/sessions.go:68-71 | when deleting the stale session fails, Create returns that error and saves nothing |
| `SessionProps.CreateDeleteRefused` | handlers/sessions.go:68-71 | a stale session on a table whose writes are refused: Create returns the refusal and no row of any table changes |
| `SessionProps.CreateLookupFails` | handlers/sessions.go:57-83 | when the lookup fails for any reason no delete is attempted; the only write is the save, and the minted session is returned |
| `SessionProps.CreateAfterMiss` | handlers/sessions.go:57-83 | after a failed lookup, what is left of Create is saving the new session |
| `SessionProps.CreateAtBoundary` | handlers/sessions.go:60-65 | a session expiring at the clock read is neither reused nor deleted; Create goes straight to saving |
| `SessionProps.CreateAtBoundaryKeepsOld` | handlers/sessions.go:60-81 | that save succeeds and the user then has two session rows |
| `SessionProps.SaveSessionAppends` | handlers/sessions.go:78-81 | saving a session to a served table succeeds and appends its row |
| `SessionProps.BoundaryRows` | handlers/sessions.go:57 | the row found plus another row for the same user make two matching rows |
| `SessionProps.CreateReturns` | handlers/sessions.go:57-83 | Create returns either the live session found or the minted one for the user, expiring at the clock read plus the lifetime; never an expired one it found |
| `SessionProps.CreateThenGet` | handlers/sessions.go:46-84 | for a user with no session, Create saves the new session and Get then gives it back |
| `SessionProps.CreateTwiceSame` | handlers/sessions.go:57-62 | a second Create while the first session is live gives the same session and writes nothing more |
| `SessionProps.SaveSessionThenGet` | handlers/sessions.go:76-83 | a session saved for a user with no row is what a lookup then gives back |
| `SessionProps.NoSessionYet` | handlers/sessions.go:57 | for a user with no row the lookup finds nothing, only reads, and the engine still connects |
| `SessionProps.DeleteThenGetSession` | handlers/sessions.go:159-164 | after Delete succeeds the user has no session to find |
| `SessionProps.ListFacts` | handlers/sessions.go:102-132 | GetAll only reads, asks for public_id ascending, echoes the page, the page size and the total, and decodes each record in place or fails at the first |
| `Profiles.DeleteByUserSpec` | handlers/users.go:68-73 | the stand-in DeleteByUser drops the user's profile and keeps every other one, or fails and changes nothing |
| `Profiles.GetByUserSpec` | handlers/users.go:90-98 | the stand-in GetByUser gives the user's profile when the store serves it |
| `Profiles.CreateProfileSpec` | handlers/users.go:194-200 | the stand-in Create stores a new profile for the user under the generated id |
| `Profiles.Profiles.constructor` | handlers/users.go:22-25 | the profile handler starts from the given store |
| `Profiles.Profiles.DeleteByUser` | handlers/users.go:69 | the call computes DeleteByUserSpec |
| `Profiles.Profiles.GetByUser` | handlers/users.go:93 | the call computes GetByUserSpec |
| `Profiles.Profiles.Create` | handlers/users.go:195 | the call computes CreateProfileSpec |
| `Users.DeleteUserSpec` | handlers/users.go:57-76 | Delete: the user row, then the profile; DeleteUserFirst and DeleteUserThenGet state its meaning |
| `Users.WithProfileSpec` | handlers/users.go:90-98 | with profiles set, the user's profile is filled in, and its failure fails the lookup; LookupProfile states it |
| `Users.AddProfileSpec` | handlers/users.go:194-200 | with profiles set, a profile is created for the new user; CreateUserReturns and ProfileThenLookup state it |
| `Users.ChangeFound` | handlers/users.go:241-255 | the looked-up row decoded and passed to ChangePassword, each failure kept; UpdatePasswordStops and ChangedUserFound state it |
| `Users.LookupSpec` | handlers/users.go:79-126 | the lookup of Get and GetByEmail; LookupOwned, LookupProfile and LookupReadOnly state its meaning |
| `Users.ListSpec` | handlers/users.go:138-176 | GetAll: the paged listing decoded record by record; UsersListFacts states its meaning |
| `Users.CreateUserSpec` | handlers/users.go:179-203 | Create: New, Save, then the profile; CreateUserOrder, CreateUserReturns and CreateUserThenGet state its meaning |
| `Users.UpdatePasswordSpec` | handlers/users.go:206-266 | UpdatePassword: the checks, the lookup, ChangePassword and the UPDATE; UpdatePasswordChecks, UpdatePasswordStops and UpdatePasswordApplies state its meaning |
| `Users.UpdateUserSpec` | handlers/users.go:269-292 | Update: the empty-id check, then the engine's Update; UpdateUserEmpty and UpdateUserApplies state its meaning |
| `Users.Users.constructor` | handlers/users.go:33-46 | the handler holds the engine, the optional profile handler and the table |
| `Users.Users.Delete` | handlers/users.go:57-76 | Delete computes DeleteUserSpec |
| `Users.Users.Lookup` | handlers/users.go:84-100 | the shared lookup computes LookupSpec |
| `Users.Users.Get` | handlers/users.go:79-101 | Get is the lookup by public_id |
| `Users.Users.GetByEmail` | handlers/users.go:104-126 | GetByEmail is the lookup by email |
| `Users.Users.GetAll` | handlers/users.go:138-176 | GetAll, record loop included, computes ListSpec |
| `Users.Users.Create` | handlers/users.go:179-203 | Create computes CreateUserSpec |
| `Users.Users.UpdatePassword` | handlers/users.go:206-266 | UpdatePassword computes UpdatePasswordSpec |
| `Users.Users.Update` | handlers/users.go:269-292 | Update computes UpdateUserSpec |
| `UserProps.DecodeUserFields` | handlers/users.go:84 | WithFields reads back the user Fields() wrote, without a profile |
| `UserProps.DecodeStoredUser` | handlers/users.go:188 | the row Save stores for a user decodes back to the user without a profile |
| `UserProps.LookupReadOnly` | handlers/users.go:84-98 | a lookup only reads the engine |
| `UserProps.LookupOwned` | handlers/users.go:84-109 | Get finds a user with the public id asked for; GetByEmail one with the email asked for |
| `UserProps.LookupProfile` | handlers/users.go:84-98 | the profile store is asked once, for the found user's public id, only after the row is found and decoded; its failure fails the lookup; without it there is no profile |
| `UserProps.DeleteUserFirst` | handlers/users.go:60-73 | the user row is deleted first; on failure the profile store is untouched; then the profile is deleted once |
| `UserProps.DeleteUserWrites` | handlers/users.go:60-63 | Delete writes exactly its DELETE by public_id |
| `UserProps.DeleteUserThenGet` | handlers/users.go:57-76 | after Delete succeeds Get finds nothing and no profile is kept for the id |
| `UserProps.CreateUserOrder` | handlers/users.go:182-200 | nothing is saved when user.New fails; the profile is created only after the save succeeds, once, for the new user |
| `UserProps.CreateUserReturns` | handlers/users.go:194-202 | Create returns the user user.New made, with the new profile when profiles are set |
| `UserProps.CreateUserWrites` | handlers/users.go:188-191 | Create writes nothing to the engine but the INSERT of the new user |
| `UserProps.CreateUserThenGet` | handlers/users.go:179-203 | for a new public id on a served table Create succeeds and Get then gives back what Create returned |
| `UserProps.SavedUserFound` | handlers/users.go:188-191 | a saved user is found and decoded by its public id |
| `UserProps.ProfileThenLookup` | handlers/users.go:194-200 | the profile Create adds is the one a later lookup fills in |
| `UserProps.UpdatePasswordChecks` | handlers/users.go:209-228 | the public id is checked before the password; either check that fails changes nothing; the profile store is never touched |
| `UserProps.UpdatePasswordStops` | handlers/users.go:241-255 | when the user is not found, does not decode or ChangePassword refuses, that error is returned and nothing is written |
| `UserProps.UpdatePasswordWrites` | handlers/users.go:257-263 | whatever UpdatePassword writes is one UPDATE of the changed user's columns and updated_at, addressed by the changed user's public id |
| `UserProps.UpdatePasswordTargets` | handlers/users.go:241-257 | when ChangePassword keeps the public id, the user updated is the user asked for |
| `UserProps.UpdatePasswordApplies` | handlers/users.go:257-263 | once the changed user is at hand, the UPDATE succeeds on every row with its public id and keeps the other rows |
| `UserProps.UpdateUserRowApplies` | handlers/users.go:257 | the engine's Update of a user by public_id succeeds on a served table, assigns the user's columns and updated_at to every row with that public id and keeps the other rows |
| `UserProps.UserFieldsLiterals` | handlers/users.go:257 | every user column prints as a literal, and the public id prints as its quoted text |
| `UserProps.UpdatePasswordAfterChange` | handlers/users.go:257 | once the changed user is at hand, what is left is the engine's Update by public_id |
| `UserProps.ChangedUserFound` | handlers/users.go:241-255 | a changed user at hand means the lookup connected and its table is served |
| `UserProps.UpdateUserEmpty` | handlers/users.go:272-280 | Update refuses an empty public id and changes nothing |
| `UserProps.UpdateUserApplies` | handlers/users.go:282 | on a served table Update sets email and updated_at of every row with the public id, keeps other rows, and never assigns the public id |
| `UserProps.UpdateUserWrites` | handlers/users.go:282-289 | whatever Update writes is one UPDATE of email and updated_at addressed by the public id |
| `UserProps.UsersListFacts` | handlers/users.go:144-175 | GetAll only reads, never consults profiles, echoes the page, the page size and the total, decodes each record in place or fails at the first |
| `Utils.FirstIndex` | utils/utils.go:28 | the position of the first occurrence of a character, or the length when there is none |
| `Utils.TrimLeft` | utils/utils.go:34-35 | `s` without its leading white space: a suffix, all removed characters white space |
| `Utils.TrimRight` | utils/utils.go:34-35 | `s` without its trailing white space: a prefix, all removed characters white space |
| `Utils.TrimSpace` | utils/utils.go:34-35 | the result is a contiguous part of the input, with white space removed on both sides and none left at either end |
| `Utils.IsSpace` | utils/utils.go:34-35 | the white space `strings.TrimSpace` removes (`unicode.IsSpace`); TrimSpace and ParsedParts state what trimming leaves |
| `Utils.SplitFirstSpace` | utils/utils.go:28 | SplitN(s, " ", 2): one part exactly when there is no space, else the text around the first space |
| `Utils.ParseAuthorization` | utils/utils.go:27-37 | SplitN at the first space, then both parts trimmed, or the error of a value with no space; its meaning is ParseNeedsSpace, ParsedParts and ParseRoundTrip |
| `Utils.ParseNeedsSpace` | utils/utils.go:28-32 | parsing fails exactly when there is no space, the empty value included, with empty scheme and token |
| `Utils.FirstIndexAfter` | utils/utils.go:28 | the first `c` of `a + [c] + b` is right after `a` when `a` has none |
| `Utils.SplitAtFirstSpace` | utils/utils.go:28-37 | the value splits at its first space only; later spaces stay in the token |
| `Utils.ParsedParts` | utils/utils.go:28-35 | on success the scheme has no space, and neither part has white space at either end |
| `Utils.TrimSpaceTrimmed` | utils/utils.go:34-35 | trimming a string with no white space at its ends leaves it unchanged |
| `Utils.TrimSpaceIdempotent` | utils/utils.go:34-35 | trimming twice is trimming once |
| `Utils.ParseRoundTrip` | utils/utils.go:27-37 | a scheme with no space and a trimmed token joined by a space parse back into themselves |
| `Utils.TrimSpaceLeading` | utils/utils.go:34-35 | leading white space is trimmed away |
| `Utils.ParseExtraSpace` | utils/utils.go:28-37 | extra spaces between scheme and token are trimmed off the token |
| `Utils.ParseDoubleSpace` | utils/utils.go:28-37 | "Bearer  abc" parses as ("Bearer", "abc") with no error |
| `Auth.ParseToken` | handlers/auth.go:80 | the stand-in ParseToken succeeds exactly when the token has a `:`, and then splits it at its first `:` |
| `Auth.CheckAuthorizationSpec` | handlers/auth.go:55-131 | CheckAuthorization: parse, scheme, token, user, session, token match, expiry; PassesExactly and the ordering lemmas of AuthProps state its meaning |
| `Auth.CheckTokenSpec` | handlers/auth.go:90-131 | the checks after the token parsed: the user, then the user's session; CheckTokenReads and CheckTokenState state what it leaves |
| `Auth.BearerAuth.constructor` | handlers/auth.go:40-43 | BearerAuth holds the user and the session handlers |
| `Auth.BearerAuth.CheckAuthorization` | handlers/auth.go:55-131 | CheckAuthorization, step by step, computes CheckAuthorizationSpec |
| `AuthProps.ParseTokenRoundTrip` | handlers/auth.go:80 | a user id with no `:` and a secret joined by `:` parse back into themselves |
| `AuthProps.RejectsMalformedFirst` | handlers/auth.go:61-68 | a header ParseAuthorization rejects fails with its error before any lookup; nothing changes |
| `AuthProps.BearerOnly` | handlers/auth.go:70-77 | any scheme but exactly "Bearer" is rejected before any lookup |
| `AuthProps.BasicRejected` | handlers/auth.go:70-77 | "Basic abc" is rejected as an unsupported scheme |
| `AuthProps.MalformedTokenFirst` | handlers/auth.go:80-87 | a Bearer token that does not parse is rejected before any lookup |
| `AuthProps.BearerWithoutColon` | handlers/auth.go:61-87 | "Bearer " followed by a trimmed token with no `:` is rejected as malformed before any lookup |
| `AuthProps.BearerMalformedRejected` | handlers/auth.go:80-87 | "Bearer malformed" is rejected as a malformed token |
| `AuthProps.BearerHeaderParses` | handlers/auth.go:46-53 | `Bearer <userID>:<token>` reaches the lookups with that user id and that token |
| `AuthProps.UnknownUserFirst` | handlers/auth.go:90-96 | an unknown user is rejected with the lookup's error and the session store is not consulted |
| `AuthProps.SessionChecksInOrder` | handlers/auth.go:99-128 | a missing session is rejected; a wrong token is reported even on an expired session; only a right token that expired is reported as expired |
| `AuthProps.PassesExactly` | handlers/auth.go:55-131 | CheckAuthorization passes exactly when every check passes, and then the user and the session found belong to the token's user id |
| `AuthProps.CheckOnlyReads` | handlers/auth.go:55-131 | CheckAuthorization only reads: nothing is saved, updated or deleted |
| `AuthProps.CheckTokenReads` | handlers/auth.go:90-106 | the user and session lookups only read |
| `AuthProps.CheckKeepsProfiles` | handlers/auth.go:90 | CheckAuthorization keeps every profile of the profile store |
| `AuthProps.CheckTokenKeepsProfiles` | handlers/auth.go:90-106 | the lookups keep every profile of the profile store |
| `AuthProps.CheckTokenState` | handlers/auth.go:90-106 | after the token parses, the profile store is as the user lookup left it and the engine as the last lookup left it |

## Left out

- Connections, transactions and logging. `DB.New` is modelled only as whether a connection opens. `Begin`/`Commit` (`db/sql/sql.go:103,130`) wrap an empty transaction, because statements run on the connection, not the transaction, so they are not modelled and their failures are not either. Every `Emit`/`Trace` log call is left out. `sqlx` scanning is the decoding of a row.
- A nil connection provider. For every operation but `migrate` a nil provider makes the source dereference nil (`sq.d.New()`). The model states this as `requires hasProvider`. `migrate` itself models the nil case (`db/sql/sql.go:55-57`).
- Database semantics. `Store.Backend` refuses statements on tables it is told to refuse and on missing tables, writes on tables whose writes it is told to refuse, a negative LIMIT or OFFSET, an INSERT with repeated or ill-typed columns, an UPDATE with nothing to SET, and nothing else. In particular it does not enforce the `public_id` PRIMARY KEY the migrations declare (`migrations/sqltables/tables.go:35,74,98`): an INSERT whose public id is already stored is accepted and appended, so `EngineProps.SaveAppends` and `SessionProps.SaveSessionAppends` also hold for a Save that a real server refuses as a duplicate key. ORDER BY ranks NULL, numbers, text, times and others in that order. A real server's type coercions and collations are not modelled.
- Literal.PrintLiteral: the `int64`/`int32` case (`db/sql/sql.go:606-607`) and the `float32` case panic in the source on `rl.(int)` and `rl.(float64)`, and the `float64` case formats a float. None of these types is in the model's value union. They are among `VOther`, which the model refuses with "Not basic type".
- Literal.TimeText: `time.Time.String()` is a stand-in that writes the instant in decimal. Go's layout is not modelled.
- Text.Quote: the model escapes only `"` and `\`. `strconv.Quote` also escapes control and non-printable characters (`\n`, `\x00`, `\u00a0`, ...), so for such strings and `[]byte` values the statement text the model sends differs from Go's (`db/sql/sql.go:611,613`). Which rows a WHERE matches does not change: both quotings are injective (`Text.QuoteInjective`), so two values give the same literal under one exactly when they do under the other.
- Map iteration order. Go randomises it. The model takes it as a parameter that enumerates the keys, and every property is stated for all such orders.
- Concurrency. The race on the `inited` latch and concurrent `Create` calls for one user are not modelled.
- Packages outside the core are stand-ins or parameters:
  - `session.New` draws an id and a token (`Sessions.Draws`);
  - `session.ParseToken` is `Auth.ParseToken`;
  - `Session.ValidateToken` and `Session.Expired` are `Auth.ValidToken` and `Auth.Expired`;
  - `Session.Fields`/`WithFields` are `Sessions.SessionFields`/`DecodeSession`;
  - `user.New` is its result `made`;
  - `User.Fields`/`WithFields` are `Users.UserFields`/`DecodeUser`;
  - `User.ChangePassword` is the parameter `change`;
  - the Profiles handler is `Profiles`;
  - `UpdateUser` carries only the public id and the email;
  - `TableMigration.String()` is a CREATE statement naming the table, so schema rendering is not modelled.
- Clocks. Every `time.Now()` read is a parameter, including the two separate reads in `Save`.
- Unicode. Strings are sequences of characters, as `strings.TrimSpace` and `strconv.Quote` decode them.
- BytesToString: an ill-formed UTF-8 sequence reads as U+FFFD per byte, as Go's decoder gives it. A Go string keeps the raw bytes, so two `[]byte` values that differ only in ill-formed bytes read the same here, and `strconv.Quote` writes such a byte as `\xHH` where the model quotes U+FFFD. Naturalize and StringLiteral inherit this for ill-formed bytes only.
- Text.ToLower: lower-cases ASCII letters only. Go's `strings.ToLower` also lower-cases non-ASCII letters (U+212A KELVIN SIGN becomes `k`, U+0130 becomes `i`), but none of them becomes a letter of "asc", "dsc" or "desc", the only texts it is compared with, so the direction NormalizeOrder gives is the same.
- QuoteRune: modelled for the runes 0 to 255 only, the runes of the bytes printLiteral passes it; strconv.IsPrint on the rest of Unicode is not modelled.
- GetSpec: `SELECT * FROM t WHERE k=v` has no ORDER BY, so SQL does not say which matching row comes first. The model returns the first match in table order, and GetFirstMatch states that choice. GetReturnsRow states only that the result is some matching row, naturalized, and holds on any server. Where several rows match, as after `SessionProps.CreateAtBoundaryKeepsOld`, which one a real server returns is not modelled.
- RunCreate: a CREATE on a table that already exists succeeds and keeps its rows. This reads the migration's statement as `CREATE TABLE IF NOT EXISTS`. `TableMigration.String()` is not part of this model, so CreateStep and MigrateTablesCreate rest on that reading.
- The structure of the record loops. The `GetAll` handlers in `handlers/users.go:156-168` and `handlers/sessions.go:113-125` share one loop, `Values.DecodeEach`.
- HTTP glue. The HTTP and OAuth layers under `resources/`, and `ErrorMessage`/`WriteErrorMessage` in `utils/utils.go`, are not part of this model.
