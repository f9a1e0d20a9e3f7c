# EDaemonWebServer skill lookup, modelled in Dafny

EDaemonWebServer is a small ASP.NET web API over a SQLite database of
role-playing skills. This project models its core:

- `BaseRepository`. The constructor picks the database path: the
  `DATABASE_PATH` environment variable wins, the `DatabasePath` configuration
  key is the fallback, and it throws when both are blank. The row decoders are
  `IntToBaseAttribute` and `IntToBool`.
- `SkillRepository`. `GetAllBasicSkillsAsync` builds a `SELECT` with one clause
  and one parameter per non-null filter field. It runs the statement and
  decodes every row. `GetBasicSkillByIdAsync` reads the first row with the id,
  or returns null.
- `SkillController` and `HealthCheckController`. They map results to 200, 404
  and 500 responses.

Each operation is a pure function over immutable data. The database is a
sequence of `Row`s whose columns may be NULL. The integer-coded columns hold a
raw `DbValue`: NULL, an integer or a text.

The statement is modelled in two layers:

- **Text and parameters.** The model keeps the statement's lines and its
  parameter list (`SkillRepository.BuildQuery`, `SkillRepository.CommandLines`).
- **Meaning.** `SkillRepository.Execute` evaluates the statement under SQLite's
  semantics:
  - `=` against NULL is never true;
  - `LIKE` is ASCII case-insensitive, with `%` and `_` as wildcards;
  - a placeholder with no bound value makes the provider refuse the statement.

Separately, `SkillRepository.Matches` states the conjunctive filter the
listing is meant to apply: substring search ignoring case, and equality on the
attribute and the flag. The main theorem, `SkillRepository.GetAllBasicSkills`,
connects the two layers. When the filter's texts hold no wildcard, the listing
decodes exactly the table rows that `Matches` accepts, in table order.

The model does not fix the numbers behind the `AttributeType` members. Its
declaration is not part of this model. The repository and its tests show only
that Strength is 1 and Agility is 2. A `Layout` supplies the remaining
numbers, and every property is proved for every layout in which the numbers
are distinct 32-bit values.

`Convert.ToInt32` and `Int32.Parse` are modelled only as far as the decoders
reach them:

- NULL converts to 0;
- an integer is range-checked;
- a text is trimmed, may carry one sign, and must be all digits;
- out of range means failure.

The constructor's doc comment (BaseRepository.cs lines 30-32) says a missing
path gives `"Data Source="`. The code throws `InvalidOperationException`
instead, and the model follows the code.

SQLite's built-in `LIKE` folds ASCII case, so the text filters are
case-insensitive. The repository's tests rely on this: `"acro"` finds
`"Acrobatics"`.

The filter values are wrapped in `%…%` without escaping, so a `%` or `_` typed
into a filter acts as a wildcard. `SkillRepository.PercentNameListsEveryNamedRow`
states the consequence. The listing theorem carries "no wildcard in the
filter's texts" as its hypothesis for this reason.

## Model

| member | source | states |
|---|---|---|
| BaseRepository.ResolveConnectionString | EDaemonWebServer/Repositories/BaseRepository.cs:34-51 | Fails with `InvalidOperation("Invalid database path.")` exactly when both the environment value and the configuration value are null or white space. Otherwise it yields `Data Source=` followed by the environment value when that one is usable, else by the configuration value. |
| BaseRepository.EnvironmentWins | EDaemonWebServer/Repositories/BaseRepository.cs:38-45 | A usable environment value makes the configuration irrelevant, and the data-source path read back from the connection string is the environment value. |
| BaseRepository.DataSourcePathOfConnectionString | EDaemonWebServer/Repositories/BaseRepository.cs:50 | Stripping the `Data Source=` prefix from a built connection string gives back the path, for every path. |
| BaseRepository.IntToBaseAttribute | EDaemonWebServer/Repositories/BaseRepository.cs:81-101 | Always a declared member. NULL, a failed conversion or a number that names no member all give `None`. A number naming a member gives the member whose number it is. |
| BaseRepository.IntToBaseAttributeRoundTrip | EDaemonWebServer/Repositories/BaseRepository.cs:81-101 | Every member, stored as its number or as the decimal text of its number, decodes back to itself. |
| BaseRepository.IntToBool | EDaemonWebServer/Repositories/BaseRepository.cs:112-126 | NULL and a failed conversion give false. An integer gives true exactly when it is a non-zero 32-bit value. A parsable text gives true exactly when its value is non-zero. |
| BaseRepository.IntToBoolRoundTrip | EDaemonWebServer/Repositories/BaseRepository.cs:112-126 | A flag stored as 1 or 0 decodes back to itself. A number and its decimal text decode alike. |
| Conversion.ToInt32 | EDaemonWebServer/Repositories/BaseRepository.cs:90 | NULL converts to 0. An integer converts to itself exactly when it fits in 32 bits, and fails otherwise. Any value produced fits in 32 bits. |
| Conversion.ParseInt32 | EDaemonWebServer/Repositories/BaseRepository.cs:90 | Any value produced fits in 32 bits. Every success comes from a layout of the text: white space, an optional sign and digits, then white space. The value is that of the signed digits. |
| Conversion.ParsePadded | EDaemonWebServer/Repositories/BaseRepository.cs:90 | The converse: any signed numeral, with any white-space padding and leading zeros, parses to its value when that fits in 32 bits and fails otherwise. |
| Conversion.ParseFormat | EDaemonWebServer/Repositories/BaseRepository.cs:119 | Parsing the decimal form of any integer gives the integer back when it fits in 32 bits, and fails otherwise. |
| Conversion.TextConvertsLikeInteger | EDaemonWebServer/Repositories/BaseRepository.cs:90 | A number and its decimal text convert to the same result. |
| ScenarioText.ParsePaddedPlusZeros | EDaemonWebServer/Repositories/BaseRepository.cs:119 | The text `" +007\t"` parses to 7. |
| ScenarioText.ParseDetachedSignFails | EDaemonWebServer/Repositories/BaseRepository.cs:119 | The text `"- 1"`, a sign separated from its digits, does not parse. |
| BaseRepository.AsciiWhiteSpace | EDaemonWebServer/Repositories/BaseRepository.cs:40 | Every character `Int32.Parse` skips is white space for `IsNullOrWhiteSpace`. On ASCII the two sets are equal. The no-break space is white space for `IsNullOrWhiteSpace` only. |
| BaseRepository.BlankConcat | EDaemonWebServer/Repositories/BaseRepository.cs:40-47 | The empty text is blank, and a text is null-or-white-space exactly when both parts of any split of it are. |
| Attributes.ToInt | EDaemonWebServer/Repositories/SkillRepository.cs:69 | A member's number fits in 32 bits, and it is 1 exactly for Strength and 2 exactly for Agility. |
| Attributes.ToIntInjective | EDaemonWebServer/Repositories/SkillRepository.cs:69 | Distinct members have distinct numbers. |
| Attributes.FromInt | EDaemonWebServer/Repositories/BaseRepository.cs:97-98 | Finds a member exactly when the number is defined, and the member found has that number. |
| Attributes.FromToInt | EDaemonWebServer/Repositories/BaseRepository.cs:97-98 | Every member's number maps back to the member. |
| SkillRepository.Clauses | EDaemonWebServer/Repositories/SkillRepository.cs:27-50 | A clause is present exactly when its filter field is non-null, and the clauses come in the order Name, BaseAttribute, SkillGroup, TrainedOnly, Description. |
| SkillRepository.Bindings | EDaemonWebServer/Repositories/SkillRepository.cs:61-85 | One parameter per clause, position for position. Each carries the clause's placeholder name and its value: text wrapped in `%`, the attribute as its number, the flag as 1 or 0. |
| SkillRepository.BuildQuery | EDaemonWebServer/Repositories/SkillRepository.cs:16-85 | The statement's clauses are exactly the requested ones, in the fixed order, and its parameters line up with them one to one. |
| SkillRepository.PlaceholdersMatchBindings | EDaemonWebServer/Repositories/SkillRepository.cs:29-84 | The i-th clause line of the text ends with the name of the i-th bound parameter. |
| SkillRepository.CommandTextListsRequestedClauses | EDaemonWebServer/Repositories/SkillRepository.cs:25-52 | Read off the statement text: after `WHERE 1=1`, the `AND` line of a field occurs exactly when that field of the filter is non-null. |
| SkillRepository.Lookup | EDaemonWebServer/Repositories/SkillRepository.cs:61-85 | Finds nothing exactly when no parameter has the name, and a value found is bound under that name. |
| SkillRepository.ClauseNullSemantics | EDaemonWebServer/Repositories/SkillRepository.cs:29-49 | No clause holds on a NULL column or with a NULL parameter. An `=` clause holds exactly when the stored value equals the non-NULL parameter. A `LIKE` clause with a wildcard-free text holds exactly on the column texts equal to it, ignoring ASCII case. |
| SqlValues.SqlEqualsIsPartialEquality | EDaemonWebServer/Repositories/SkillRepository.cs:34-44 | SQL `=` is an equality on non-NULL values only. NULL is not equal even to itself. It is symmetric and transitive, and on two non-NULL values it is plain equality. |
| SqlValues.LikeLiteral | EDaemonWebServer/Repositories/SkillRepository.cs:29-49 | A `LIKE` pattern without `%` or `_` matches exactly the texts of the same length that equal it ignoring ASCII case. |
| SkillRepository.Select | EDaemonWebServer/Repositories/SkillRepository.cs:87-129 | Keeps exactly the table rows that satisfy every clause under SQLite semantics, and never more rows than the table has. |
| SkillRepository.Execute | EDaemonWebServer/Repositories/SkillRepository.cs:87 | Refused exactly when some clause's placeholder has no bound value. Otherwise it reads exactly the rows satisfying the statement. |
| SkillRepository.BuiltQueryExecutes | EDaemonWebServer/Repositories/SkillRepository.cs:27-87 | The statement built for any filter binds every placeholder it uses, so the provider never refuses it. |
| SkillRepository.LookupBuiltQuery | EDaemonWebServer/Repositories/SkillRepository.cs:61-85 | In the built statement, each requested clause's placeholder is bound to that clause's value. |
| SkillRepository.Where | EDaemonWebServer/Repositories/SkillRepository.cs:27-50 | Keeps exactly the rows the conjunctive filter accepts, and never more rows than it is given. |
| SkillRepository.MatchesByField | EDaemonWebServer/Repositories/SkillRepository.cs:27-50 | A row passes the filter exactly when it meets the condition of each non-null field: Name, BaseAttribute, SkillGroup, TrainedOnly and Description. |
| SkillRepository.ClauseHoldsIffField | EDaemonWebServer/Repositories/SkillRepository.cs:29-84 | For a wildcard-free filter, a clause with its bound value holds on a row under SQLite semantics exactly when the row meets the field's intended condition. |
| SkillRepository.RowSatisfiesIffMatches | EDaemonWebServer/Repositories/SkillRepository.cs:27-85 | For a wildcard-free filter, a row satisfies the built statement exactly when the filter accepts it. |
| SkillRepository.SelectIsWhere | EDaemonWebServer/Repositories/SkillRepository.cs:87-129 | For a wildcard-free filter, the rows the statement reads are exactly the filter's rows, in table order. |
| SkillRepository.DecodeRow | EDaemonWebServer/Repositories/SkillRepository.cs:97-126 | The defaults are 0 for a NULL Id, the empty text for a NULL Name or Description, and null for a NULL SkillGroup. A NULL BaseAttribute gives `None` and a NULL TrainedOnly gives false. The attribute is always a declared member. |
| SkillRepository.NullBranchesAgreeWithDecoders | EDaemonWebServer/Repositories/SkillRepository.cs:107-126 | The explicit NULL branches give what `IntToBaseAttribute` and `IntToBool` would give, so every column goes through the same decoding. |
| SkillRepository.DecodeEncode | EDaemonWebServer/Repositories/SkillRepository.cs:97-126 | A skill stored as a row with no NULL integer column decodes back to the same skill. |
| SkillRepository.MatchesStoredSkill | EDaemonWebServer/Repositories/SkillRepository.cs:27-85 | A stored skill passes the filter exactly when it meets each requested condition. Name and Description must contain the text, ignoring case. SkillGroup must be non-null and contain the text. The attribute and the flag must be equal. |
| SkillRepository.GetAllBasicSkills | EDaemonWebServer/Repositories/SkillRepository.cs:12-132 | For every filter, wildcards included, the listing is exactly the decoding of the rows that satisfy the built statement, in table order. Each such skill decodes a satisfying table row, and there are never more skills than rows. For a wildcard-free filter it is exactly the decoding of the filter's rows. |
| SkillRepository.FindById | EDaemonWebServer/Repositories/SkillRepository.cs:145-156 | No result exactly when no row carries the id. Otherwise the result is the first row carrying it. |
| SkillRepository.GetBasicSkillById | EDaemonWebServer/Repositories/SkillRepository.cs:134-196 | Null exactly when no row has the id. Otherwise the skill has that id and is the decoding of a row with that id. |
| SkillRepository.EmptyFilterListsAll | EDaemonWebServer/Repositories/SkillRepository.cs:25-52 | With every filter field null, the listing decodes every row of the table, in order. |
| SkillRepository.ByIdIsListed | EDaemonWebServer/Repositories/SkillRepository.cs:134-196 | A skill found by id is also in the unfiltered listing. |
| SkillRepository.NullColumnsEscapeFilters | EDaemonWebServer/Repositories/SkillRepository.cs:32-45 | A row with NULL BaseAttribute and NULL TrainedOnly decodes to `None` and false. Filtering on exactly those values still does not list it, because `=` against NULL is never true. |
| SkillRepository.PercentNameListsEveryNamedRow | EDaemonWebServer/Repositories/SkillRepository.cs:61-64 | A name filter of `%` is not escaped. The statement accepts every row with a non-NULL name, and the wrapped pattern `%%%` matches every text. |
| SqlValues.LikeWrappedIsContains | EDaemonWebServer/Repositories/SkillRepository.cs:63 | For a wildcard-free value v, the pattern `%v%` matches a text exactly when the text contains v ignoring ASCII case. |
| SqlValues.LikeLiteralThenPercent | EDaemonWebServer/Repositories/SkillRepository.cs:63 | For a wildcard-free value v, `v%` matches exactly the texts that start with v ignoring ASCII case. |
| SqlValues.LikeLeadingPercent | EDaemonWebServer/Repositories/SkillRepository.cs:63 | A leading `%` matches exactly when the rest of the pattern matches some suffix of the text. |
| Controllers.GetAllBasicSkills | EDaemonWebServer/Controllers/SkillController.cs:19-23 | Always 200, carrying the service's listing for the filter. |
| Controllers.GetBasicSkill | EDaemonWebServer/Controllers/SkillController.cs:25-33 | A `NotFound()` result, which carries no value, exactly when the service finds nothing. 200 with the skill exactly when it finds one. |
| Controllers.TestDbConnection | EDaemonWebServer/Controllers/HealthCheckController.cs:21-29 | 200 exactly when the check succeeded and 500 exactly when it failed. The body always has `ok` and `message`. It adds `scalar` on success and `error` on failure, and has no other key. |
| Controllers.HealthResponseRoundTrip | EDaemonWebServer/Controllers/HealthCheckController.cs:21-29 | The flag, the message, and the scalar or the error can all be read back from the response. |
| Scenarios.IntToBaseAttributeOfKnownNumbers | EDaemonWebServerTests/Repositories/BaseRepositoryTests.cs:61-79 | 1 decodes to Strength and 2 to Agility, in every valid layout. |
| Scenarios.IntToBaseAttributeOfUnknownNumber | EDaemonWebServerTests/Repositories/BaseRepositoryTests.cs:65 | 999 decodes to `None` in every layout where it names no member. |
| Scenarios.IntToBaseAttributeOfText | EDaemonWebServer/Repositories/BaseRepository.cs:88-95 | The text `abc` fails to convert, and so decodes to `None`. |
| Scenarios.IntToBoolCases | EDaemonWebServerTests/Repositories/BaseRepositoryTests.cs:81-100 | NULL and 0 give false, 1, -1 and `"1"` give true, and `"abc"` gives false. An integer beyond 32 bits also gives false. |
| Scenarios.ConnectionStringCases | EDaemonWebServerTests/Repositories/BaseRepositoryTests.cs:24-59 | No path at all fails, an environment path `mydb.sqlite` gives `Data Source=mydb.sqlite`, and a blank environment value falls back to the configuration. |
| Scenarios.SeededListsBoth | EDaemonWebServerTests/Repositories/SkillRepositoryTests.cs:116-123 | The empty filter lists two skills, as the test's count assertion expects. They are exactly the two seeded rows decoded, in table order. |
| Scenarios.SeededByName | EDaemonWebServerTests/Repositories/SkillRepositoryTests.cs:130-134 | The name filter `acro` lists exactly Acrobatics. |
| Scenarios.SeededByAttribute | EDaemonWebServerTests/Repositories/SkillRepositoryTests.cs:136-140 | The attribute filter Agility lists exactly Stealth. |
| Scenarios.SeededByGroup | EDaemonWebServerTests/Repositories/SkillRepositoryTests.cs:142-145 | The group filter `Phys` lists both rows, in order. |
| Scenarios.SeededByTrainedOnly | EDaemonWebServerTests/Repositories/SkillRepositoryTests.cs:147-151 | The trained-only filter lists exactly Stealth. |
| Scenarios.SeededByDescription | EDaemonWebServerTests/Repositories/SkillRepositoryTests.cs:153-157 | The description filter `hide` lists exactly Stealth. |
| Scenarios.SeededLookup | EDaemonWebServerTests/Repositories/SkillRepositoryTests.cs:89-114 | Id 1 gives Acrobatics with every field as seeded, id 2 gives a trained-only skill, and id 9999 gives null. |
| Scenarios.ListingThroughController | EDaemonWebServer/Controllers/SkillController.cs:19-23 | Through the pass-through service and the repository, a wildcard-free filter is answered with 200. The body decodes exactly the table rows the filter accepts, in table order. |
| Scenarios.MissingIdIsNotFound | EDaemonWebServer/Controllers/SkillController.cs:25-33 | Through the pass-through service and the repository, the answer is 404 exactly when no row has the id and 200 exactly when one does. |
| Scenarios.SeededMissingIdIsNotFound | EDaemonWebServer/Controllers/SkillController.cs:25-33 | Asking the seeded table for id 999 through the controller gives a `NotFound()` result, which carries no value. |

## Left out

- Connections, `async`/`await`, `using`/disposal and the reader's cursor are left out. A query is a pure function from the table to the rows read, and rows are read in table order; SQLite does not promise an order without `ORDER BY`.
- Reading `DATABASE_PATH` and the configuration is left out. Both become `Option<string>` parameters of `BaseRepository.ResolveConnectionString`. The `configuration?` null check is the `None` case.
- `[ApiController]` on `SkillController` turns on ASP.NET Core's client-error mapping, so over HTTP the `NotFound()` result becomes a 404 whose body is a problem-details object. The model stops at the action result.
- `GetConnection` only wraps the connection string in a `SqliteConnection`, and is not modelled beyond the string.
- `HealthCheckRepository` and `HealthCheckService` run a scalar query against the database. The controller receives their result as the `ConnectionCheck` parameter.
- The `SkillService` layer forwards each call unchanged. It appears as two forwarding functions: `Scenarios.ListingService` for `GetAllBasicSkillsAsync` and `Scenarios.SkillService` for `GetBasicSkillAsync`. It also appears as the function parameters of the controller members.
- `Program.cs` (dependency injection, routing, Swagger) and the `[FromForm]`/`[HttpGet]` binding attributes are left out. They are framework wiring.
- The `[Required]`/`[MaxLength]` annotations on the entity are left out. They are never checked on the read path.
- Provider-side column conversion is left out. The model does not capture `GetInt32` on an Id outside 32 bits, or `GetString` on a non-text column. Id is modelled as an integer, and the text columns as text or NULL.
- SQLite's type affinity is left out. An INTEGER column turns numeric text into an integer on insert, but the model lets a `DbValue` hold any text, which is the more general case.
- `Convert.ToInt32` on REAL and BLOB values is left out, because `DbValue` has no such storage class. SQLite can still hand these to the decoders: an INTEGER-affinity column keeps a non-integral number such as 1.5 as REAL, and keeps a blob as BLOB. `GetValue` then returns a `double` (which `Convert.ToInt32` rounds to even) or a `byte[]` (which it cannot convert). Floating-point rounding is outside this model.
- `Int32.Parse` corners are left out: trailing NUL characters, and signs other than ASCII `+` and `-` in cultures that define them.
- The `AttributeType` declaration is not part of this model. Its numbers other than Strength = 1 and Agility = 2 are the `Layout` parameter.
- `Scenarios.IntToBaseAttributeOfUnknownNumber`: assumes 999 names no member, as the test expects. The declaration that would settle this is not part of this model.
- `SkillRepository.GetAllBasicSkills`: the containment reading of the filter (`Where`) is stated only for filters whose texts hold no `%` or `_`. With wildcards the listing is stated as exactly the rows satisfying the built statement under `LIKE` semantics. `SkillRepository.PercentNameListsEveryNamedRow` shows that such a listing need not be a substring search.
- `LIKE` with a non-ASCII letter compares it exactly, as SQLite does without the ICU extension. No Unicode case folding is modelled.
