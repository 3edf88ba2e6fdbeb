# rest-backend-php in Dafny

This project is a Dafny model of the core of a small PHP REST backend. It covers three parts:

- **The table accessor `DB`.** It builds the SELECT, INSERT, UPDATE and DELETE text for one table from:
  - the table name;
  - an ordered column-type definition: `number`, `json` or anything else;
  - the caller's data and a verbatim clause.

  Its `formatRow` coerces fetched rows by column type. Both versions are modelled: the current one (`src/db/init.php`) and the legacy one (`db/init.php`).
- **The required-key check of `getRequestData`** (`includes/json.php`).
- **The router decision `parseRoutes`** (`handler.php`). It derives a route path from the request URI and picks the route script. It ends in exactly one of four outcomes: not found, frontend passthrough, method dispatch, or method not allowed.

## Layout

| file | module | what |
|---|---|---|
| `php.dfy` | `Php` | PHP values, ordered arrays (`seq<(string, T)>` with unique keys, so key order is insertion order), `join`, `rtrim`, string conversion |
| `db.dfy` | `Db` | statement builders, the escape_string refusal rule, and `formatRow` as a function, shared by both versions |
| `accessor.dfy` | `Accessor` | `class DB` of `src/db/init.php` |
| `legacy_db.dfy` | `LegacyDb` | `class DB` of `db/init.php`; it reuses the builders that are identical |
| `escaping.dfy` | `Escaping` | a concrete model of the escaping primitive and the finding below |
| `request.dfy` | `Request` | `getRequestData` over an already-parsed body |
| `router.dfy` | `Router` | `parseRoutes` |
| `sample_model.dfy` | `SampleModel` | the example model of `src/model/sample_model.php` and worked examples |

### How the foreign parts are modelled

- **Library calls and the connection.** They are function values:
  - `Connection.escape` is the mysqli escaping primitive;
  - `Connection.query` is the query oracle, which returns `Failed` or the rows of the result;
  - `Runtime.jsonEncode`, `Runtime.jsonDecode` and `Runtime.intval` are json_encode, json_decode and intval.
- **What each method promises.** Every accessor method has a specification function. The method is proved to issue exactly the statement that function builds (`result == conn.query(UpdateStatement(...))`), or to return exactly the rows it formats. The lemmas then prove what that text and those rows are.
- **A json_encode failure** returns false, which PHP interpolates as the empty string. `jsonEncode` returning `""` covers that case.
- **escape_string's parameter.** Its type decides which values it refuses, modelled as `EscapeRejects`:
  - The current `escape_string(string $string)` (src/db/init.php:186) takes integers and booleans as text. It raises a TypeError for null and for an array.
  - The legacy `escape_string($string)` (db/init.php:112) is untyped, and the driver's own `string` parameter takes null as "". Only an array raises.
  - A JSON column passes json_encode text, a string, so it never raises.
  - `insert` and `update` then end in `Issued.TypeError`, and no statement is issued.

### Where the code and its documentation disagree, the model follows the code

- **Columns missing from the definition.** The code looks them up as null and writes them as quoted strings. It does not reject them.
- **`update` with empty data.** It issues ``UPDATE `t` SET  <clause>;`` rather than failing.
- **Handler lookup.** It uses `function_exists`, which ignores case, so the method name need not be upper case.
- **The query string.** It is cut off with `strtok`, which also skips leading `?` characters. A URI such as `?x` therefore routes as `x`.
- **JSON on insert.** The current `insert` writes JSON text without escaping it (see Findings).
- **No round trip.** Nothing in the code promises that writing a value and reading it back gives the same value, and the model does not claim one.

## Model

| member | source | states |
|---|---|---|
| `Php.RTrim` | src/db/init.php:153 | rtrim leaves a prefix of its input that is empty or does not end in a stripped character; everything removed is a stripped character |
| `Php.RTrimIgnoresTail` | db/init.php:92 | appending only stripped characters does not change what rtrim leaves |
| `Db.SelectStatementShape` | src/db/init.php:66-67 | a SELECT starts with `SELECT `, ends with the caller's clause and ";", and names every column with `*` when no columns are given |
| `Db.InsertStatementShape` | src/db/init.php:115-118 | an INSERT lists the data's keys, joined by ", " in data order, before `VALUES (`, and ends with `);`: no clause follows |
| `Db.UpdateStatementShape` | src/db/init.php:153-155 | an UPDATE starts with ``UPDATE `t` SET `` and ends with a space, the caller's clause and ";" |
| `Db.DeleteStatementShape` | src/db/init.php:173 | a DELETE starts with ``DELETE FROM `t` `` and ends with the caller's clause and ";" |
| `Db.SomeEscapeRejectsAt` | src/db/init.php:100-109 | escape_string refuses the data exactly when some entry's value is refused |
| `Db.LiteralsAligned` | src/db/init.php:100-116 | the value list has one literal per data entry, at that entry's position, encoded by the entry's column type |
| `Db.QuotedUnlessNumber` | src/db/init.php:102-109 | every literal of a column not typed number is wrapped in single quotes, including a column missing from the definition |
| `Db.LiteralListVersions` | db/init.php:51-58 | the two value lists coincide whenever escaping leaves every JSON text unchanged |
| `Db.LiteralVersions` | src/db/init.php:142-150 | the two JSON encodings differ only in whether the JSON text passes through escaping; for every other column the insert and update literals coincide |
| `Db.AssignmentsAligned` | src/db/init.php:140-152 | the SET list has one `` `column` = literal `` entry per data entry, in data order |
| `Db.SetListIsJoin` | src/db/init.php:151-153 | when the last literal does not end in a comma or a space, the rtrim removes exactly the final ", " and the SET list is the entries joined by ", " |
| `Db.SetListQuotedTail` | src/db/init.php:146-153 | a SET list whose last column is not typed number is the entries joined by ", " |
| `Db.SetListIntegerTail` | src/db/init.php:146-153 | so is one whose last value is an integer that escaping leaves alone |
| `Db.SetListEatsNumberTail` | src/db/init.php:146-153 | rtrim eats into an unquoted value: a number column given `s + ", "` is written `` `c` = s `` |
| `Db.EmptyDataAndClause` | src/db/init.php:153-173 | empty data gives an empty SET list; with an empty clause, UPDATE and DELETE carry no filter (``DELETE FROM `t` ;``) |
| `Db.FormattedRowValue` | src/db/init.php:198-219 | formatRow coerces a column only when it is declared and set: number through intval, json through json_decode, other types unchanged; undeclared and null columns keep their raw value |
| `Db.FormattedRowKeys` | src/db/init.php:198-219 | formatRow's keys are exactly the raw row's keys: no declared-but-absent column is added, and no undeclared or null column is dropped |
| `Db.FormattedRowOrder` | src/db/init.php:198-219 | formatRow's key order: the declared columns that are set, in definition order, then the other columns of the row, in row order |
| `Db.PresentLookup` | src/db/init.php:198-214 | the first loop holds a key exactly when it is declared and set in the row, with its coerced value |
| `Db.PresentKeys` | src/db/init.php:198-201 | the first loop's keys are the declared columns set in the row, in definition order |
| `Db.DiffKeyLookup` | src/db/init.php:217 | array_diff_key keeps a row entry exactly when its key is not already formatted |
| `Db.DiffKeyKeys` | src/db/init.php:217 | array_diff_key keeps the row's other keys in row order |
| `Accessor.DB.constructor` | src/db/init.php:38-41 | the accessor holds the given table name and column definition |
| `Accessor.DB.EscapeString` | src/db/init.php:186-189 | refuses null and arrays (a TypeError, None); for any other value it is the driver's escaping of the value's string conversion |
| `Accessor.DB.Fetch` | src/db/init.php:64-80 | issues SelectStatement; the result is None exactly when the query fails, otherwise one formatted row per result row, in result order |
| `Accessor.DB.Insert` | src/db/init.php:95-121 | a TypeError exactly when escape_string refuses a value; otherwise it issues exactly InsertStatement, with the column and value lists aligned in data order and JSON text not escaped |
| `Accessor.DB.Update` | src/db/init.php:137-158 | a TypeError exactly when escape_string refuses a value; otherwise it issues exactly UpdateStatement, with JSON text encoded, then escaped and quoted |
| `Accessor.DB.Delete` | src/db/init.php:171-176 | issues exactly DeleteStatement |
| `Accessor.DB.FormatRow` | src/db/init.php:195-221 | its two loops build FormattedRow, whose keys, values and order the lemmas above state |
| `LegacyDb.LegacyInsertStatementShape` | db/init.php:65-68 | a legacy INSERT lists the data's keys before `VALUES (` and ends with `) `, the caller's clause and ";" |
| `LegacyDb.LegacyFormattedRowKeys` | db/init.php:117-137 | legacy formatRow's keys are exactly the declared columns set in the row, in definition order; undeclared columns are dropped |
| `LegacyDb.LegacyFormattedRowValue` | db/init.php:125-135 | legacy formatRow coerces number with intval and json with json_decode, and keeps any other type's value |
| `LegacyDb.FormatRowVersions` | db/init.php:117-138 | the legacy row is the first part of the current one, and the two are equal when every column of the row is declared and set |
| `LegacyDb.InsertVersions` | db/init.php:44-71 | when escaping leaves JSON text alone, the legacy INSERT is the current one with the clause put before the final ";" |
| `LegacyDb.RejectionVersions` | db/init.php:112-115 | every write the legacy accessor refuses, the current one refuses too; a null value outside a JSON column is refused only by the current one |
| `LegacyDb.DB.constructor` | db/init.php:7-10 | the accessor holds the given table name and column definition |
| `LegacyDb.DB.EscapeString` | db/init.php:112-115 | refuses only arrays (a TypeError, None); null is escaped as ""; any other value is the driver's escaping of its string conversion |
| `LegacyDb.DB.Fetch` | db/init.php:23-39 | the same SELECT as the current version; None exactly when the query fails, otherwise one legacy-formatted row per result row, in order |
| `LegacyDb.DB.Insert` | db/init.php:44-71 | a TypeError exactly when some non-JSON value is an array; otherwise it issues exactly `INSERT into ... VALUES (vals) <clause>;`, with JSON text encoded, then escaped and quoted like strings |
| `LegacyDb.DB.Update` | db/init.php:76-97 | a TypeError exactly when some non-JSON value is an array; otherwise it issues the same UPDATE statement as the current version, with the same rtrim |
| `LegacyDb.DB.Delete` | db/init.php:102-107 | issues the same DELETE statement as the current version |
| `LegacyDb.DB.FormatRow` | db/init.php:117-138 | its single loop builds LegacyFormattedRow |
| `Escaping.MysqlEscape` | src/db/init.php:182-183 | escaping the listed characters always gives text that stays inside one quoted SQL literal, at most twice as long as its input |
| `Escaping.UnescapeMysqlEscape` | src/db/init.php:182-184 | the server reads the escaped text back as exactly the original text |
| `Escaping.EscapedInsertStatement` | db/init.php:51-68 | the corrected INSERT, with JSON text escaped; with no JSON column it is the INSERT the current version issues |
| `Escaping.EscapedLiteralWellFormed` | db/init.php:51-59 | with that escaping, every literal outside a number column that escapes JSON (update, legacy insert) is one well-formed quoted literal |
| `Escaping.EscapedInsertQuotesWellFormed` | db/init.php:49-66 | every value of an INSERT that escapes JSON, outside number columns, is one well-formed quoted literal |
| `Escaping.JsonInsertBreaksQuoting` | src/db/init.php:102-104 | the JSON literal the current insert writes for the text `"it's"` is not a well-formed quoted literal; the escaped one is |
| `Escaping.JsonInsertAsIssued` | src/db/init.php:102-118 | that insert issues ``INSERT into `t` (meta) VALUES ('"it's"');`` |
| `Escaping.JsonInsertCorrected` | db/init.php:51-68 | with JSON escaped, the same insert is ``INSERT into `t` (meta) VALUES ('\"it\'s\"');`` |
| `Request.RequestDataResult` | includes/json.php:62-73 | the result is null or the body itself; a TypeError exactly when there are no required keys and the body is neither null nor an array |
| `Request.GetRequestData` | includes/json.php:62-73 | the sticky-flag loop returns RequestDataResult: null when a required key is absent or null, otherwise the body; a scalar body with nothing missing fails the declared array-or-null return type |
| `Request.NullExactlyWhenKeyMissing` | includes/json.php:69-72 | with required keys, the result is null exactly when some key is not set; otherwise it is the body, unchanged |
| `Request.NoRequiredKeys` | includes/json.php:67-72 | with no required keys, the parsed body is returned as it is, even null |
| `Request.RequiredKeysAsSet` | includes/json.php:69-71 | only the set of required keys matters: order and repetition change nothing |
| `Router.TakeUntil` | handler.php:30 | the token is a prefix of the URI, holds no `?`, and ends at the end of the URI or just before a `?` |
| `Router.LeadingCount` | handler.php:30 | counts exactly the `?` characters the URI starts with |
| `Router.StrTok` | handler.php:30 | strtok skips the leading `?` characters and returns the text up to the next `?`; it holds no `?`, and is empty exactly when the URI is only `?` characters |
| `Router.RoutePath` | handler.php:30 | the route path always starts with `src/routes` and never ends with `/` |
| `Router.RoutePathShape` | handler.php:30 | for a URI not starting with `?`, the token is the URI cut at its first `?`, and the route path is `src/routes` plus that token, rtrimmed of `/` |
| `Router.QueryStringIgnored` | handler.php:30 | a query string does not change the route path |
| `Router.TrailingSlashIgnored` | handler.php:30 | a trailing slash does not change the route path |
| `Router.LeadingQuestionMarkSkipped` | handler.php:30 | strtok skips a leading `?`: `?` followed by a path resolves as that path |
| `Router.ParseRoutes` | handler.php:28-55 | not found exactly when neither `<p>.php` nor `<p>/index.php` exists; `<p>.php` is preferred; frontend exactly when the script sets `$frontend`, with its output kept; otherwise dispatch to the request method exactly when a function of that name exists, else method not allowed |
| `Router.ErrorResponses` | handler.php:38-53 | the router's own responses are 404 with `{"success":false,"message":"Not Found."}` and 405 with `{"success":false,"message":"Method Not Allowed."}` |
| `Router.DispatchIgnoresCase` | handler.php:50 | the handler lookup gives the same answer for a method name and its lower-case form |
| `SampleModel.NewSampleModel` | src/model/sample_model.php:10-17 | the sample model is an accessor of `sample_table_name` with columns id (number), name (string) and email (string) |
| `SampleModel.SampleColumnTypes` | src/model/sample_model.php:12-16 | the sample columns look up as number, string and string |
| `SampleModel.SampleSelectAll` | src/db/init.php:66-67 | fetching every column gives ``SELECT * FROM `sample_table_name` WHERE id='1';`` |
| `SampleModel.SampleSelectColumns` | src/db/init.php:66-67 | fetching two columns lists them joined by ", " |
| `SampleModel.SampleInsert` | src/db/init.php:100-118 | inserting id 7 and name Ann writes the number `7` unquoted and `'Ann'` quoted: `(id, name) VALUES (7, 'Ann')` |
| `SampleModel.SampleUpdate` | src/db/init.php:140-155 | updating one name under a clause gives ``SET `name` = 'Sarah Jane' WHERE id='21';`` |
| `SampleModel.SampleFormat` | src/db/init.php:195-221 | formatting a fetched row coerces id with intval, adds no missing column, and keeps the null email and the undeclared column |

## Findings

| source | as written | input that shows it | evidently intended | confidence | as-written member | corrected member |
|---|---|---|---|---|---|---|
| src/db/init.php:102-104 | `insert` wraps the json_encode text of a JSON column in single quotes without escaping it | a JSON column given the string `it's`: json_encode yields `"it's"`, and the statement holds `('"it's"')`, whose second quote ends the literal | escape the JSON text before quoting it, as `update` of the same file (lines 142-149) and the legacy `insert` (db/init.php:51-58) do | medium; not executed | `Escaping.JsonInsertBreaksQuoting` | `Escaping.EscapedInsertQuotesWellFormed` |

`Accessor.DB.Insert` keeps the behaviour as written, because it models the code. `Escaping.EscapedInsertStatement` is the corrected statement builder, and `Escaping.JsonInsertCorrected` shows its text for the example.

## Left out

- **mysqli and settings:** the connection, the `constant("DB_*")` lookups and `die` on a connection error (src/db/init.php:43-47, db/init.php:12-16) are left out. The connection is a parameter of the constructor.
- **Query execution:** this is the `Connection.query` oracle. It has no effect on later queries and no generated identifiers. Its `Failed` result is the `false` that `query` returns when mysqli reports errors by return value, which is what `$result === false` (src/db/init.php:71, db/init.php:30) tests. Since PHP 8.1 mysqli throws `mysqli_sql_exception` by default instead; that exception is not modelled.
- **escape_string:** `Db` keeps the driver's primitive uninterpreted; `DB.EscapeString` adds only the refusals its parameter type causes. `Escaping` models it only for the single-byte characters its doc comment lists. Character-set-dependent multi-byte handling is not modelled.
- **json_encode, json_decode and intval:** their internals are not modelled; they are uninterpreted functions. json_decode in formatRow yields objects rather than arrays, but the model does not distinguish them.
- **Argument conversion for escape_string:** integers and booleans are converted with PHP's string conversion. Null and arrays are refused as described above. Floats are not part of the value model. PHP 8.1's deprecation notice for null passed to the driver in the legacy version is not modelled.
- **`fetch_assoc`:** the model treats every result row as non-empty, because a SELECT has at least one column. An empty array ending the `while` loop early is therefore not modelled.
- **getRequestData's input:** `file_get_contents('php://input')` and the json_decode of the body (includes/json.php:64-65) are left out. The parsed body is the input.
- **`isset` on a scalar body:** `isset($data[$key])` on a string body (string offsets) is treated as not set.
- **sendResponse and sendResponseJson:** the header, status and echo side effects (includes/json.php:19-46) are left out. The router's calls to them are the outcomes `NotFound` and `MethodNotAllowed`, with their bodies given by `ErrorResponse`.
- **Route scripts:**
  - `require`, output buffering and the dynamic call `$_SERVER["REQUEST_METHOD"]()` (handler.php:10-12, 43-51) are abstracted as a `Controller` value: the `$frontend` flag, the output, and the functions defined.
  - The called handler's own behaviour is not modelled.
  - `functions` is every function defined when `function_exists` runs (handler.php:50). That includes `parseRoutes`, `setLogging`, the included helpers and PHP's built-ins, so a request method named `phpinfo` or `parseRoutes` is dispatched too.
  - A script that ends the request while it is being required is not modelled.
- **`setLogging`:** `ini_set` and `error_reporting` (handler.php:17-23) are not modelled.
- **Inheritance in `SampleModel extends DB`:** it becomes a method that constructs a `DB` with the fixed table name and columns.
