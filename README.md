# TSM\Database in Dafny

This project models `TSM\Database`, a small PHP helper for MySQL through PDO.
The class keeps five static connection settings, set by `config`. Each object
is bound to one table, opens its own connection when it is constructed, and
offers `insert`, `select`, `update`, `delete` and `find`. Each of these builds
one SQL statement and one parameter list and hands both to `execute`. Any
driver failure, whether connecting or executing, is raised again with the
message prefixed by `ERROR: `.

The model has four modules:

- `Results` (results.dfy): `Option` and `Result`.
- `Php` (php.dfy): the PHP scalars the helper receives (`Scalar`) and their
  conversion to text as `.` performs it (`Text`: null and false give `""`,
  true gives `"1"`, integers give their decimal text). It also has `strlen`
  (`Present`), `implode` (`Join`), `array_pad` (`Repeat`) and the decimal
  rendering of integers. `Split` (`explode`) and `ParseDecimal` are inverses
  used only to state properties: joined column lists and rendered ports read
  back to what was written.
- `Statements` (statements.dfy): the pure builders. They produce each CRUD
  statement's text and parameters, the DSN and the error message. Next to
  them are the lemmas about alignment, placeholders, clause presence and the
  DSN.
- `Tsm` (database.dfy): the stateful part.
  - The static settings are a `Settings` object, and `Config` overwrites all
    five of them.
  - `Open` models `new Database($table)`, which stores the table and then
    connects.
  - The `Database` class has an immutable `table`, the `connection` it was
    opened with, and a `log` of every statement handed to the driver.
  - Each CRUD method appends exactly one statement, the builder's output, to
    `log`, and changes nothing else.

The driver is not modelled. Every call that reaches it takes the driver's
answer as a parameter: a `ConnectReply` for connecting, and a `Reply` (rows
and last inserted id, or an error message) for a statement.

Notable behaviours of the code, all reproduced by the model:

- The DSN is `mysql:host=<host>;dbname=<name>;port=<port>`.
- An absent `select` clause leaves its joining spaces behind. With no
  arguments the text is `SELECT * FROM <table>` followed by three spaces.
- `insert` answers the driver's last inserted id as text, although its doc
  comment promises an integer.
- `update` with an empty map writes `SET =? WHERE ...`: one placeholder with
  nothing bound to it. This is reproduced, not fixed (`UpdateEmpty`).
- `find` answers nothing both when no row matches and when the fetched row
  is empty, because `?: null` treats an empty array as false.

## Model

| member | source | states |
|---|---|---|
| `Php.Text` | src/Database.php:85 | PHP's string conversion by `.`: null and false give `""`, true gives `"1"`, a string is kept, an integer gives its decimal text |
| `Php.Present` | src/Database.php:134-136 | `strlen` of an argument is zero exactly for null, false and `""`; every integer and every other string, `"0"` included, counts as present |
| `Php.DecimalRoundTrip` | src/Database.php:85 | the text PHP writes for an integer (such as the port in the DSN) reads back as that integer |
| `Php.Join` | src/Database.php:119 | `implode` of no part is `""`, of one part is that part, and otherwise holds every part plus one separator per pair of neighbours |
| `Php.SplitJoin` | src/Database.php:119 | for a non-empty list of parts and a one-character separator that no part contains, `implode` is undone by splitting at that separator: the parts come back in order |
| `Php.Repeat` | src/Database.php:118 | `array_pad([], n, x)` is a list of exactly `n` copies of `x` |
| `Statements.Keys` | src/Database.php:117 | `array_keys` lists the field names in the map's order, one per field |
| `Statements.Values` | src/Database.php:120 | `array_values` lists the field values in the map's order, one per field |
| `Statements.InsertColumns` | src/Database.php:117-119 | the column list is empty for no field, and for comma-free names it splits at commas back into the field names in order |
| `Statements.Placeholders` | src/Database.php:118-119 | the placeholder list is empty exactly when there is no field, and otherwise splits at commas into one `?` per field |
| `Statements.InsertStatement` | src/Database.php:117-120 | the insert text is `INSERT INTO <table> (`, then exactly the column list, then `) VALUES (<placeholders>)`; the bound parameters are the field values in order |
| `Statements.PlaceholdersShape` | src/Database.php:118-119 | the placeholder list for `n` fields is `?` and `,` alternating, starting and ending with `?`, of length `2n-1` (empty for no field): exactly `n` placeholders |
| `Statements.InsertAlignment` | src/Database.php:117-120 | for comma-free field names, column i, placeholder i and parameter i all belong to field i, and there are as many of each as there are fields |
| `Statements.Clause` | src/Database.php:134-136 | a clause is empty exactly when its argument has zero `strlen`; otherwise it is as long as the keyword and the argument's text together |
| `Statements.SelectStatement` | src/Database.php:132-138 | a select starts with `SELECT <fields> FROM <table> ` and binds no parameter |
| `Statements.ClausePresence` | src/Database.php:134-136 | each clause keyword is written if and only if its argument has non-zero length, and the argument follows it unchanged |
| `Statements.SelectLayout` | src/Database.php:137 | after the head come the WHERE, ORDER BY and LIMIT slots, separated by single spaces that stay when a slot is empty |
| `Statements.SelectNullIsEmpty` | src/Database.php:134-136 | for each clause, a null argument and an empty string give the same statement |
| `Statements.SelectAll` | src/Database.php:132-137 | the all-default select is `SELECT * FROM <table>` followed by three spaces: the head's own and the two that join the three empty slots |
| `Statements.SelectKeepsZero` | src/Database.php:134 | a where argument of `"0"` is kept, giving `WHERE 0` |
| `Statements.SetList` | src/Database.php:150 | the SET list ends with `=?`; for no field it is a lone `=?`, and otherwise it is the comma-separated list of `name=?` assignments in field order |
| `Statements.UpdateStatement` | src/Database.php:149-151 | an update is `UPDATE <table> SET `, then exactly the SET list, then ` WHERE <where>`; it binds the field values in order |
| `Statements.SetListIsAssignments` | src/Database.php:150 | for at least one field, names joined by `=?,` and a final `=?` equal the comma-separated list of `name=?` assignments, in order |
| `Statements.UpdateAlignment` | src/Database.php:149-151 | for comma-free names, assignment i is `name_i=?` and parameter i is `value_i`; there are as many `name=?` assignments as bound values |
| `Statements.UpdateEmpty` | src/Database.php:150 | an update with no fields writes `SET =? WHERE <where>` and binds nothing |
| `Statements.DeleteStatement` | src/Database.php:162-163 | a delete is `DELETE FROM <table>` then ` WHERE <where>` and nothing else, and binds no parameter |
| `Statements.FindStatement` | src/Database.php:175-176 | a find is exactly `SELECT <fields> FROM <table>` followed by ` WHERE id = :id`, the named placeholder for the one bound name, `id`, bound to the id |
| `Statements.Dsn` | src/Database.php:85 | the DSN is the entry `mysql:host=<host>`, then exactly `;dbname=<name>`, then `;port=<port>` |
| `Statements.DsnEntries` | src/Database.php:85 | when no setting contains `;`, the DSN has exactly three `;`-separated entries: `mysql:host=<host>`, `dbname=<name>`, `port=<port>` |
| `Statements.DsnPort` | src/Database.php:85 | an integer port is written into the DSN's third entry after `port=` and reads back as the same number |
| `Statements.Wrap` | src/Database.php:88-89 | a raised message is `ERROR: ` followed by the driver's message unchanged |
| `Tsm.Outcome` | src/Database.php:101-107 | a statement's call succeeds exactly when the driver succeeds, with the driver's rows; otherwise it fails with the prefixed message |
| `Tsm.FirstRow` | src/Database.php:177 | `fetch ?: null` answers nothing exactly when there is no row or the first row is empty, and otherwise the first row |
| `Tsm.Settings.constructor` | src/Database.php:14-38 | before configuration every static setting is null |
| `Tsm.Settings.Config` | src/Database.php:60-67 | `config` overwrites all five settings; the port defaults to 3306 |
| `Tsm.SetConnection` | src/Database.php:82-91 | the connection uses the DSN and credentials of the current settings; a refusal is raised with the prefix |
| `Tsm.Open` | src/Database.php:73-77 | construction stores the table and connects; on refusal no accessor exists and the prefixed error is raised; a new accessor has an empty log |
| `Tsm.Database.constructor` | src/Database.php:75 | the table is fixed at construction |
| `Tsm.Database.Execute` | src/Database.php:99-108 | exactly one statement is handed to the driver; the result is the driver's rows or the prefixed error; nothing else changes |
| `Tsm.Database.Insert` | src/Database.php:115-122 | hands over exactly the insert statement and answers the last inserted id, or the prefixed error |
| `Tsm.Database.Select` | src/Database.php:132-139 | hands over exactly the select statement and answers the rows, or the prefixed error |
| `Tsm.Database.Update` | src/Database.php:147-153 | hands over exactly the update statement and answers true whenever the driver does not raise |
| `Tsm.Database.Delete` | src/Database.php:160-165 | hands over exactly the delete statement and answers true whenever the driver does not raise |
| `Tsm.Database.Find` | src/Database.php:173-178 | hands over exactly the find statement and answers the first row, or nothing when there is none, or the prefixed error |
| `Tsm.ConnectScenario` | src/Database.php:60-86 | an accessor keeps the DSN of the settings current at its construction; configuring again later does not change it |
| `Tsm.CrudScenario` | src/Database.php:115-178 | five calls hand the driver five statements, in call order, each the builder's output for that call |

## Left out

- The PDO driver is not modelled. Opening the connection, `prepare`, `execute`, `fetch` and `lastInsertId` are replaced by the reply parameters, and how PDO binds or converts values is not modelled.
- Database semantics are left out. Insert-then-find round trips, the rows an update or delete affects and the rows a select returns all depend on the MySQL store, not on this code.
- The raw `where`, `order`, `limit` and `fields` text is opaque. Whether it is valid or safe SQL is not modelled, since it is concatenated verbatim.
- Floats, arrays and objects as arguments are left out: `Scalar` covers null, booleans, integers and strings.
- Integer keys of the values map are represented by their decimal text. That is how `implode` prints them, and PHP folds the string `"5"` and the integer `5` into one key anyway.
- Concurrency on the static settings and on one connection is left out. PHP runs the helper on one thread.
- The exception class (`PDOException`) is left out. Only the message, with its prefix, is modelled, as the `Failure` of a `Result`.
- Closing the connection when the object is released is left out, because it is not visible in the source.
- `Tsm.Database.Execute`: the statement is appended to `log` even when the driver raises. The statement was handed to the driver either way, and the model does not record whether the failure came from `prepare` or from `execute`.
