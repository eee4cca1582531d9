# Query builder model

A Dafny model of `App\ORM\Query`, the fluent SQL SELECT builder of the
shopping-list application. The builder holds four accumulators:

- the selected fields;
- the WHERE conditions;
- the FROM sources;
- the limit.

Chainable methods add to or overwrite the accumulators. `__toString`
concatenates them into one SQL statement. Two terminals hand that statement
to the database connection: `first()` maps at most one row through the model,
and `all()` maps every row.

Files (all modules are declared at top level and import one another):

- `wrappers.dfy`, module `Wrappers`: `Option`, which stands for PHP `null` and
  for "no row".
- `strings.dfy`, module `Strings`: `implode` as `Join`, and PHP's int-to-string
  conversion as `IntToString`. `ParseInt` reads the text back, and a proved
  round trip pairs the two.
- `keyed_set.dfy`, module `KeyedSet`: a PHP array keyed by its own values
  (`$a[$x] = $x`) becomes a duplicate-free `seq<string>`. `Insert` is one
  write. `InsertAll` is the `foreach` loop of `select`. `Fresh` is an
  independent left-to-right definition of "the new names, in first-occurrence
  order".
- `sql.dfy`, module `Sql`: the statement as a pure function of the four
  accumulators (`Render`), the entry `from()` stores (`SourceEntry`), and the
  lemmas about the text.
- `query.dfy`, module `ORM`: the class `Query<Row, Entity>`.
  - Its fields `fields`, `conditions`, `from` and `limit` are updated in place
    by `Select`, `Where`, `From`, `Limit` and `First`.
  - `Render()` is the pure `__toString`.
  - `const model: Row -> Entity` stands for `ModelInterface::newEntity`, an
    uninterpreted function fixed at construction.
  - The connection is a parameter of each terminal: a function from SQL text to
    the raw result.
  - A few client methods (`Scenario…`) show chains of calls and the state they
    leave behind.

Three behaviours of the code as written are easy to misread:

- With a non-empty field list, no space is written before `FROM`
  (src/ORM/Query.php:57 followed by :62). `select("id","name")->from("users")`
  renders `SELECT id, nameFROM users;`, not `SELECT id, name FROM users;`
  (`Sql.TwoFieldsExample`).
- `first()` is not a pure read: it calls `limit(1)` (src/ORM/Query.php:139), so
  the limit stays 1 afterwards (`ORM.Query.First`).
- The limit is any PHP `int`, not only a non-negative one. A negative limit is
  written out as ` LIMIT -n`, because only 0 suppresses the clause.

## Model

| member | source | states |
|---|---|---|
| ORM.Query.constructor | src/ORM/Query.php:15-45 | a new query has no fields, no conditions, no sources and limit 0, and is bound to its model |
| ORM.Query.Render | src/ORM/Query.php:52-70 | `__toString` reads the state only; the text opens with `SELECT ` and ends with `;` |
| ORM.Query.Select | src/ORM/Query.php:79-86 | the new field list is the old one followed by the names that were not yet present, each once, in first-occurrence order; no name is listed twice |
| ORM.Query.Where | src/ORM/Query.php:95-100 | the conditions become the old conditions followed by the arguments, in call order, with duplicates kept; nothing else changes |
| ORM.Query.From | src/ORM/Query.php:110-116 | the entry `table as alias` (or `table` for a falsy alias) is written into the source list: an identical entry keeps its place, a new one is appended |
| ORM.Query.Limit | src/ORM/Query.php:125-130 | the limit is overwritten with `n` (the last call wins); nothing else changes |
| ORM.Query.First | src/ORM/Query.php:137-147 | the limit is 1 afterwards, the statement sent ends with ` LIMIT 1;`, a returned row becomes `Some(model(row))` and no row gives `None` |
| ORM.Query.All | src/ORM/Query.php:152-159 | one entity per returned row, `model(rows[i])` at position i, for the statement of the unchanged state; no rows gives an empty list |
| KeyedSet.Insert | src/ORM/Query.php:82 | one write `$a[$x] = $x`: the old entries keep their positions, `x` is present afterwards, at most one entry is added, and no duplicate appears |
| KeyedSet.InsertAll | src/ORM/Query.php:81-83 | the `foreach` of writes keeps the old entries as a prefix and keeps the list free of duplicates |
| KeyedSet.InsertAllAppendsFresh | src/ORM/Query.php:81-83 | inserting names one by one equals appending the not-yet-present names in first-occurrence order |
| KeyedSet.FreshMembers | src/ORM/Query.php:81-83 | a name is appended exactly when it is an argument and was not already present |
| KeyedSet.FreshNoDup | src/ORM/Query.php:81-83 | the appended names are distinct, even when an argument repeats |
| KeyedSet.InsertAllMembers | src/ORM/Query.php:81-83 | after `select`, a name is a field exactly when it was a field before or is an argument |
| KeyedSet.InsertAllPresent | src/ORM/Query.php:81-83 | selecting only names that are already present changes nothing |
| KeyedSet.InsertAllIdempotent | src/ORM/Query.php:81-83 | repeating `select` with the same names changes nothing |
| KeyedSet.InsertIdempotent | src/ORM/Query.php:113 | writing the same source entry twice is the same as writing it once |
| Sql.SourceEntry | src/ORM/Query.php:112 | the stored entry starts with the table, and differs from the bare table exactly when the alias is truthy (not null, `""` or `"0"`) |
| Sql.SourceEntryAliases | src/ORM/Query.php:112-113 | for one table, two truthy aliases give the same entry exactly when they are equal |
| Sql.TwoAliasesTwoSources | src/ORM/Query.php:112-113 | `from(t, a)` then `from(t, b)` with different truthy aliases keeps two entries in call order; `from(t, a)` twice keeps one |
| Sql.WhereClause | src/ORM/Query.php:54 | the WHERE text is empty exactly when there are no conditions, and otherwise starts with ` WHERE ` |
| Sql.LimitClause | src/ORM/Query.php:65-67 | the LIMIT text is empty exactly when the limit is 0, negative limits included; otherwise it is ` LIMIT ` followed by a number that reads back as the limit |
| Sql.RenderFrame | src/ORM/Query.php:52-70 | every statement opens with `SELECT ` and ends with `;` |
| Sql.RenderWithoutFields | src/ORM/Query.php:56-62 | with no fields the statement opens with `SELECT * FROM ` and the sources joined by `, ` |
| Sql.RenderWithFields | src/ORM/Query.php:56-62 | with fields the statement opens with `SELECT `, the fields joined by `, `, then `FROM ` with no space before it, then the sources |
| Sql.TwoFieldsExample | src/ORM/Query.php:56-69 | `select("id","name")->from("users")` renders `SELECT id, nameFROM users;` |
| Sql.StarExample | src/ORM/Query.php:56-69 | `from("users")` renders `SELECT * FROM users;` |
| Sql.WhereExample | src/ORM/Query.php:54-69 | `from("users")->where("a=1")->where("b=2")` renders `SELECT * FROM users WHERE a=1 AND b=2;` |
| Sql.RenderBare | src/ORM/Query.php:62-69 | without conditions and limit, the statement ends right after the sources with `;` |
| Sql.RenderEndsWithWhere | src/ORM/Query.php:54-69 | with conditions and limit 0, the statement ends with ` WHERE ` and the conditions joined by ` AND `, then `;` |
| Sql.RenderEndsWithWhereLimit | src/ORM/Query.php:54-69 | with conditions and a non-zero limit, the WHERE clause is followed directly by ` LIMIT n;` |
| Sql.LimitOnlyAppends | src/ORM/Query.php:65-69 | the limit changes the statement only by inserting ` LIMIT n` before the final `;`, and only when it is non-zero |
| Sql.WhereAppends | src/ORM/Query.php:54 | conditions added by two `where` calls render as one clause, the two groups joined by ` AND ` |
| Sql.RenderLimitOne | src/ORM/Query.php:139-140 | with limit 1, the statement `first()` sends ends with ` LIMIT 1;` whatever the other state |
| Sql.RenderWithoutSources | src/ORM/Query.php:62 | with no sources, no conditions and no limit, the statement ends with `FROM ;`, which is malformed SQL that the code does not reject |
| Sql.ConditionCanImitateLimit | src/ORM/Query.php:54-69 | condition text is inserted unescaped: a condition `x LIMIT 5` without a limit renders exactly like condition `x` with limit 5 |
| Strings.Join | src/ORM/Query.php:54-62 | `implode`: the parts in order with the separator between neighbours (the value itself is the definition; its properties are the two lemmas below) |
| Strings.JoinEnds | src/ORM/Query.php:54-62 | a non-empty `implode` opens with the first part and closes with the last |
| Strings.IntToString | src/ORM/Query.php:66 | PHP's int-to-text is non-empty and starts with `-` exactly when the int is negative |
| Sql.AliasGiven | src/ORM/Query.php:112 | a truthy alias is a present, non-empty string, and every present alias of two or more characters is truthy (only null, `""` and `"0"` are falsy) |
| Sql.SelectClause | src/ORM/Query.php:56-60 | the select part opens with `SELECT `, and with fields what follows is exactly the fields joined by `, ` |
| Sql.FromClause | src/ORM/Query.php:62 | the from part is `FROM ` followed by exactly the sources joined by `, `, and nothing more when there are none |
| Sql.Render | src/ORM/Query.php:52-70 | the body of `__toString`: the select, from, where and limit parts in that order, then `;`; the statement is never shorter than `SELECT FROM ;` and always ends with `;` |
| Strings.JoinAppend | src/ORM/Query.php:54 | `implode` of two non-empty lists is the two implodes with one separator between them |
| Strings.NatToDecimal | src/ORM/Query.php:66 | the decimal text of a limit is non-empty, all digits, and has no leading zero |
| Strings.DecimalRoundTrip | src/ORM/Query.php:66 | the digits written for a natural number read back as that number |
| Strings.IntRoundTrip | src/ORM/Query.php:66 | the text written for any int, negative ones included, reads back as that int |
| Strings.IntToStringInjective | src/ORM/Query.php:66 | different limits are written as different texts |

## Left out

- src/Debug/Debugger.php is not part of this model. It is output and introspection plumbing (`echo`, the SAPI check, backtraces, dispatch to dumper classes, HTML styling) with no logic of its own.
- `Connection::getInstance()->query(...)`, a process-wide singleton doing database I/O, is not modelled. Each terminal takes it as a parameter instead: a function from SQL text to one optional row (`first`) or to a list of rows (`all`).
- `ModelInterface::newEntity` is not modelled beyond being a fixed, uninterpreted function from a row to an entity.
- ORM.Query.First: PHP returns the raw result unchanged whenever it is falsy (`null`, `false`, an empty array). The model has only "a row" and "no row"; no row is `None`.
- PHP turns numeric-string array keys into integers (`$this->fields["1"]`). This changes neither the rendered values nor their order, so the model keeps every key as a string.
- PHP's 64-bit `int` range for the limit is not modelled. The limit is an unbounded `int`, because the code does no arithmetic on it; it only compares it with 0 and converts it to text.
- The fluent `return $this` is not modelled. The mutators are methods of the object, so chaining is a sequence of calls on the same object.
- No SQL parsing, escaping or validation is modelled, because the code does none. `Sql.ConditionCanImitateLimit` shows one consequence.
