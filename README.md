# RedBeanPHP SQL Server query writer, in Dafny

RedBeanPHP is an object-relational mapper. It changes the database schema
as beans are stored. Its SQL Server query writer (`SqlServer.php`) decides:

- which column type a value needs (`scanType`);
- how a type code maps to SQL type text and back (the type tables built by
  the constructor, and `code`);
- which DDL statements to send when a column must be widened, or a unique
  constraint, an index or a foreign key must be added (`widenColumn`,
  `addUniqueConstraint`, `addIndex`, `addFK`, with `getColumns` supplying
  the current column types);
- whether a driver's SQLSTATE belongs to one of the interface's error
  categories (`sqlStateIn`).

The model has seven modules:

- `PhpValues` (`php_values.dfy`): the values a bean property can hold; the
  text PHP renders each as (strval); PHP 8's `is_numeric` grammar on
  strings, with the number it denotes as an exact real.
- `Patterns` (`patterns.dfy`): the six anchored regular expressions of
  `scanType`, written as predicates. PCRE's `$` also matches before a final
  newline, and every predicate includes that case.
- `SqlServerTypes` (`sql_server_types.dfy`): the type codes, the forward
  table, the reverse table keyed by trimmed lower-case type text, and `code`.
- `Scanner` (`scanner.dfy`): `scanType`, as one function whose branches are
  tried in the order the writer lists them.
- `ErrorClassifier` (`error_classifier.dfy`): `sqlStateIn`.
- `StringOrder` (`string_order.dfy`): the order `sort()` puts escaped
  column names in, and the permutation lemmas that make constraint names
  order-independent.
- `Writer` (`writer.dfy`): the adapter and the writer, as two classes.
  - The adapter keeps a log of every DDL statement sent to it. An oracle
    `fails(position, statement)` says which statements raise an SQL error.
    A fixed catalogue says which columns a table has and which fields
    already carry a foreign key.
  - The writer's constructor fills the forward table, then derives the
    reverse table with a loop. Its schema methods append to the adapter's
    log. Each states the new log and its result in every case, including
    SQL errors that escape (`Status.Raised`) and errors that are swallowed.

`getColumns` reports each column as its data type followed by
`(max_length)` whenever `max_length` is numeric. SQL Server always reports
a numeric `max_length`, so an INT column reads back as `int(4)`. Its code is
then SPECIFIED, and `addFK` widens every existing field, INT columns
included, before it adds the key. `Writer.SqlServerWriter.NumericLengthIsWidened`
states this. A missing field also reads back as SPECIFIED and is widened as
well (`Writer.SqlServerWriter.WideningRule`).

## Model

| member | source | states |
|---|---|---|
| Scanner.ScanType | RedBeanPHP/QueryWriter/SqlServer.php:226-292 | scanType always returns a code of the forward table (never SPECIFIED); with the flag off it never returns MONEY, POINT, LINESTRING or POLYGON |
| Scanner.ScanNullAndInf | RedBeanPHP/QueryWriter/SqlServer.php:229-235 | null is BOOL and the float INF is TEXT7, whatever the flag |
| Scanner.ScanMoneyIff | RedBeanPHP/QueryWriter/SqlServer.php:237-240 | a value is MONEY exactly when the flag is set, the value is neither null nor INF, and its text matches `^-?\d+\.\d{2}$` |
| Scanner.ScanGeometry | RedBeanPHP/QueryWriter/SqlServer.php:241-249 | with the flag set, a text that is not money-shaped is POINT, LINESTRING or POLYGON when it starts with that prefix and `(` |
| Scanner.ScanDates | RedBeanPHP/QueryWriter/SqlServer.php:252-257 | DATE and DATETIME texts get those codes whatever the flag, since no money or geometry text has either shape |
| Scanner.ScanBoolLiterals | RedBeanPHP/QueryWriter/SqlServer.php:259-262 | true, false, '0' and '1' are BOOL whatever the flag, so '1' is never INT |
| Scanner.ScanFloat | RedBeanPHP/QueryWriter/SqlServer.php:264-266 | a float rendered as a numeric text, -INF or NAN is FLOAT unless the flag is set and its text is money-shaped |
| Scanner.ScanInt | RedBeanPHP/QueryWriter/SqlServer.php:268-281 | an integer without leading zeros is INT in [0, 2147483647], BIGINT above that, and FLOAT when negative |
| Scanner.ScanNumericString | RedBeanPHP/QueryWriter/SqlServer.php:268-281 | a numeric string other than '0' and '1', without leading zeros and not taken as money, is INT when integral in [0, 2147483647], else BIGINT when integral in [0, 9223372036854775807], else FLOAT |
| Scanner.ScanText | RedBeanPHP/QueryWriter/SqlServer.php:283-291 | a text that reaches the length check is NVARCHAR(191) up to 191 characters, NVARCHAR(255) up to 255, and NTEXT beyond |
| Scanner.LengthTierMonotone | RedBeanPHP/QueryWriter/SqlServer.php:283-291 | the length tier never decreases as the text grows, and it is always one of the three text codes |
| Scanner.ScanXs | RedBeanPHP/QueryWriter/SqlServer.php:283-291 | a text of n letters x, n > 0, gets the tier of its length, whatever the flag |
| Scanner.Issue411Boundaries | testing/RedUNIT/SqlServer/Issue411.php:38-54 | 190 and 191 letters stay in the NVARCHAR(191) tier and 192 letters move to NVARCHAR(255) |
| Scanner.MoneyOrInt | RedBeanPHP/QueryWriter/SqlServer.php:237-240 | '1.00' is MONEY with the flag and INT without it, because it denotes the integral number 1 |
| Scanner.LeadingZerosStayText | RedBeanPHP/QueryWriter/SqlServer.php:268-284 | a numeric text with leading zeros ('007') is kept as NVARCHAR(191), not INT |
| Patterns.NumericIsNoPattern | RedBeanPHP/QueryWriter/SqlServer.php:241-256 | no numeric text matches the date, date-time or geometry patterns |
| Patterns.SignedDigitsIsNoPattern | RedBeanPHP/QueryWriter/SqlServer.php:238-256 | the decimal text of an integer matches none of the six patterns |
| Patterns.MoneyIsNoDate | RedBeanPHP/QueryWriter/SqlServer.php:238-256 | no date or date-time text is money-shaped |
| Patterns.PrefixesExclusive | RedBeanPHP/QueryWriter/SqlServer.php:241-248 | no text starts with two of the geometry prefixes, so the order of those branches does not matter |
| PhpValues.NumericShape | RedBeanPHP/QueryWriter/SqlServer.php:270-278 | every character of a numeric text is whitespace, a sign, a digit, '.', 'e' or 'E', and no '-' directly follows a digit |
| SqlServerTypes.ForwardPadded | RedBeanPHP/QueryWriter/SqlServer.php:141-155 | every type text of the forward table is one space, an upper-case type name and one space |
| SqlServerTypes.ForwardDistinct | RedBeanPHP/QueryWriter/SqlServer.php:141-155 | distinct codes have distinct type texts |
| SqlServerTypes.NormalizePadded | RedBeanPHP/QueryWriter/SqlServer.php:160 | trimming and lower-casing a padded type text gives the lower-cased name |
| SqlServerTypes.NormalizedForwardInjective | RedBeanPHP/QueryWriter/SqlServer.php:159-161 | distinct codes have distinct reverse-table keys, so the loop never overwrites an entry |
| SqlServerTypes.ReverseOfFinds | RedBeanPHP/QueryWriter/SqlServer.php:159-161 | when keys are distinct, the loop stores every visited code under its own key |
| SqlServerTypes.ReverseOfKeys | RedBeanPHP/QueryWriter/SqlServer.php:159-161 | every key of the loop-built table is the key of a visited code |
| SqlServerTypes.ReverseKeys | RedBeanPHP/QueryWriter/SqlServer.php:159-161 | the reverse table's keys are exactly the normalised type texts of the forward table |
| Writer.SqlServerWriter.constructor | RedBeanPHP/QueryWriter/SqlServer.php:139-164 | the forward table is the fixed table and the loop leaves the reverse table derived from it in the order its entries were written |
| SqlServerTypes.Code | RedBeanPHP/QueryWriter/SqlServer.php:297-314 | code returns SPECIFIED or a code stored in the reverse table, SPECIFIED for any text that is not a key, and without specials SPECIFIED or a code below the special range |
| SqlServerTypes.CodeRoundTrip | RedBeanPHP/QueryWriter/SqlServer.php:141-161 | round trip: for every code of the forward table, code of its normalised type text (with specials) is that code |
| SqlServerTypes.CodeReadsBackOnlyItsKey | RedBeanPHP/QueryWriter/SqlServer.php:297-306 | with specials, a text reads back as a code of the table exactly when it is that code's normalised type text |
| SqlServerTypes.CodeUnknown | RedBeanPHP/QueryWriter/SqlServer.php:299-303 | a text that is no normalised type text reads back as SPECIFIED, with or without specials |
| SqlServerTypes.CodeWithoutSpecials | RedBeanPHP/QueryWriter/SqlServer.php:305-313 | without specials, a result at or above the special range becomes SPECIFIED and any other result is unchanged |
| SqlServerTypes.CodeWithoutSpecialsOnForward | RedBeanPHP/QueryWriter/SqlServer.php:297-314 | without specials, ordinary codes round-trip and special codes read back as SPECIFIED |
| SqlServerTypes.EmptyTextIsUnknown | RedBeanPHP/QueryWriter/SqlServer.php:299-303 | the empty text (a missing column) reads back as SPECIFIED |
| Writer.GetTypeForID | RedBeanPHP/QueryWriter/SqlServer.php:172-175 | the ID type is an ordinary code of the forward table (INT) |
| Writer.SqlServerWriter.GetColumns | RedBeanPHP/QueryWriter/SqlServer.php:206-221 | the loop builds exactly the column map of the catalogue's rows, later rows replacing earlier ones |
| Writer.ColumnsOfKeys | RedBeanPHP/QueryWriter/SqlServer.php:217-219 | the column map's names are exactly the names of the rows |
| Writer.ColumnsOfLast | RedBeanPHP/QueryWriter/SqlServer.php:217-219 | a column's type text is the descriptor of the last row with that name |
| Writer.Descriptor | RedBeanPHP/QueryWriter/SqlServer.php:218 | a row's type text starts with its data type; it is exactly the data type when max_length is not numeric, and otherwise the data type followed by '(', the text of max_length and ')' |
| Writer.SqlServerWriter.WidenColumn | RedBeanPHP/QueryWriter/SqlServer.php:412-426 | a code outside the forward table returns false and sends nothing; otherwise one ALTER COLUMN to the code's type text is sent, and it returns true or raises that statement's error |
| Writer.StripNonWord | RedBeanPHP/QueryWriter/SqlServer.php:348 | the index name keeps only word characters and never grows |
| Writer.StripKeepsWords | RedBeanPHP/QueryWriter/SqlServer.php:348 | a name made of word characters is left unchanged |
| Writer.StripIdempotent | RedBeanPHP/QueryWriter/SqlServer.php:348 | sanitising a sanitised name changes nothing |
| Writer.StripConcat | RedBeanPHP/QueryWriter/SqlServer.php:348 | sanitising a concatenation sanitises each piece |
| Writer.StripDropsNonWord | RedBeanPHP/QueryWriter/SqlServer.php:348 | a non-word character anywhere in the name is deleted, not replaced: the name sanitises as if it were absent |
| Writer.StripKeepsWordChar | RedBeanPHP/QueryWriter/SqlServer.php:348 | a word character is kept in place, between what is kept before it and what is kept after it |
| Writer.SqlServerWriter.AddIndex | RedBeanPHP/QueryWriter/SqlServer.php:344-355 | one CREATE INDEX with the sanitised name on the escaped table and column is sent, and the result is true exactly when it does not fail |
| StringOrder.Sort | RedBeanPHP/QueryWriter/SqlServer.php:328 | sort returns a sorted permutation of its input |
| StringOrder.SortedUnique | RedBeanPHP/QueryWriter/SqlServer.php:328 | two sorted sequences with the same elements are equal |
| StringOrder.SortOrderIndependent | RedBeanPHP/QueryWriter/SqlServer.php:328 | any two orderings of the same strings sort to the same sequence |
| StringOrder.MapSeqPermutation | RedBeanPHP/QueryWriter/SqlServer.php:323-325 | escaping two orderings of the same properties gives two orderings of the same escaped names |
| Writer.SqlServerWriter.UniqueIndexStatement | RedBeanPHP/QueryWriter/SqlServer.php:321-332 | the unique index is on the escaped table, over a sorted permutation of the escaped columns, and named 'UQ_' + sha1 of exactly that column list joined by commas |
| Writer.UniqueNameOrderIndependent | RedBeanPHP/QueryWriter/SqlServer.php:328-329 | the constraint name 'UQ_' + sha1(sorted columns joined by commas) is the same for any ordering of the columns |
| Writer.SqlServerWriter.UniqueIndexOrderIndependent | RedBeanPHP/QueryWriter/SqlServer.php:319-333 | any reordering of the properties sends the very same CREATE UNIQUE INDEX statement, name and column list included |
| Writer.SqlServerWriter.AddUniqueConstraint | RedBeanPHP/QueryWriter/SqlServer.php:319-339 | exactly one CREATE UNIQUE INDEX over the sorted escaped columns is sent, and the result is false exactly when it fails |
| Writer.SqlServerWriter.WideningRule | RedBeanPHP/QueryWriter/SqlServer.php:376-381 | addFK widens exactly when the field's type text is not the normalised INT type text; a missing field is always widened |
| Writer.SqlServerWriter.NumericLengthIsWidened | RedBeanPHP/QueryWriter/SqlServer.php:206-221 | a field whose max_length is numeric never reads back as INT, so addFK widens it |
| Writer.SqlServerWriter.ForeignKeyStatement | RedBeanPHP/QueryWriter/SqlServer.php:363-388 | the foreign key is added to the escaped table on the unquoted field, references the unquoted target table and field, is named 'fk_' + table + '_' + field, cascades deletes exactly when the bean is dependent (NO ACTION otherwise) and never cascades updates |
| Writer.SqlServerWriter.AddFK | RedBeanPHP/QueryWriter/SqlServer.php:361-393 | an existing foreign key returns false and sends nothing; otherwise: no widening sends only the key; a widening whose ALTER fails raises after sending only that ALTER; a widening that succeeds sends ALTER then key. The key is fk_table_field with ON DELETE CASCADE exactly when dependent, ON UPDATE NO ACTION, and addFK returns true whether or not the key statement fails |
| Writer.Adapter.Exec | RedBeanPHP/QueryWriter/SqlServer.php:423 | exec appends the statement to the log and reports whether it raised an error |
| ErrorClassifier.CategoryOf | RedBeanPHP/QueryWriter/SqlServer.php:400-406 | a state maps to one of the three categories or to the unknown marker '0' |
| ErrorClassifier.SqlStateIn | RedBeanPHP/QueryWriter/SqlServer.php:398-407 | sqlStateIn holds exactly when 42S02, 42S22 or 23000 has its category in the list, or the state is unknown and '0' is in the list |
| ErrorClassifier.UnknownExactly | RedBeanPHP/QueryWriter/SqlServer.php:400-406 | with distinct categories, a state maps to the unknown marker exactly when it is none of the three known states |
| ErrorClassifier.UnknownStateInNoList | RedBeanPHP/QueryWriter/SqlServer.php:398-407 | an unknown state is in no list made of category constants |
| ErrorClassifier.CategoryOfInjective | RedBeanPHP/QueryWriter/SqlServer.php:400-404 | distinct known states map to distinct categories |
| ErrorClassifier.SingleCategoryList | RedBeanPHP/QueryWriter/SqlServer.php:398-407 | a list holding one known state's category accepts that state and no other |

## Left out

- Database I/O beyond the adapter's statement log is not modelled: `insertRecord`, `getTables`, `createTable`, `getKeyMapForType`, `wipe` and `wipeAll` build SQL text whose effect depends on the database engine.
- `glueLimitOne` returns its SQL text unchanged; SQL text is not modelled.
- Statements are modelled by their parts, not as SQL text. Whitespace, brackets and keyword spelling are left out.
- The writer's base class and interface are not part of this model. `esc`, `startsWithZeros`, `sha1`, `getForeignKeyForTypeProperty`, the special-range bound and the three SQLSTATE category constants are parameters. The only assumption about the categories is that they are distinct from each other and from '0'.
- Writer.Adapter: the catalogue (`columnRows`, `foreignKeyOn`) is a fixed snapshot. Statements the writer sends do not change what it reports later.
- Only SQL errors raised by `exec` are modelled. Other exceptions and PHP warnings are not; a missing column reads back as the empty text, as PHP's null does as an array key.
- Writer.SqlServerWriter.AddFK: the catalogue queries never fail in the model. In the source, an SQL error raised by the foreign-key lookup (`getForeignKeyForTypeProperty`) or by the column query of `getColumns` escapes `addFK`. The model ends `Raised` only when the widening ALTER fails.
- Writer.SqlServerWriter.GetColumns: the column query never fails in the model; an SQL error it raises in the source escapes `getColumns`.
- Scanner.ScanType does not model the `svalue` field it sets as a side effect.
- Scanner.ScanType models numbers as exact reals, while PHP converts a numeric string to a double before `floor($value) == $value` and the range comparisons. A numeric string whose decimal value is not exactly a double can therefore get a different code anywhere in the range: `"1.0000000000000001"` and `"1e-400"` round to 1.0 and 0.0 and are INT in PHP, but FLOAT in the model; `"2147483647.9999999999"` is BIGINT in PHP and FLOAT in the model. Floats other than INF are carried by their text and not modelled as doubles either.
- Scanner.ScanType counts characters, not UTF-8 bytes decoded by `mb_strlen`.
- ErrorClassifier.SqlStateIn uses strict equality, not the loose comparison of `in_array`.
- StringOrder.Sort compares strings character by character. It does not model the numeric comparison `sort()` applies to two numeric strings.
- StringOrder.Sort is a function on sequences. The in-place `sort()` of the source's `$columns` is modelled by the value it leaves.
- The `varchar(...)` texts the Issue 411 test reads back come from the facade's inspect call and a live database, and are not modelled; only the tier boundaries are.
