# sqlbind-t membership rendering, scope matching and template checking in Dafny

This project models three small, pure pieces of sqlbind-t, a library that builds
parameterized SQL from marker-prefixed templates and renders it per dialect into
SQL text plus an ordered list of bound values.

- **Membership rendering (`field.IN(values)`)** in the two dialects. SQLite
  (`Sqlite`) renders an empty collection as its false constant `0`. It binds up to
  `IN_MAX_VALUES = 10` values one parameter each, in order. Above that it binds
  nothing and inlines the values as SQL literals: strings single-quoted with
  quotes doubled, integers in decimal, anything else an error. PostgreSQL
  (`Postgresql`) renders an empty collection as `FALSE`. Otherwise it renders
  `field = ANY(marker)`, binding the whole collection as one array parameter.
- **The parameter accumulator** (`QueryParams`). Each `compile(v)` appends `v`
  and returns its marker: `?` in the default style, `$n` in the dollar style.
- **The scope matcher `match_module`** (`ScopeMatch`). It decides whether a
  dotted module name falls under a dotted pattern. `*` matches one segment and
  `**` any number of segments, and matching is anchored at both ends.
- **The marker check `check_template`** (`TemplateCheck`). Only an f-string that
  starts with the marker (`@`) becomes a checked template, with the marker
  stripped. Anything else is refused.

Values are a closed union `Value = Num(int) | Str(string) | Array(seq<Value>) |
Other(repr)`. `Array` is the list PostgreSQL binds; `Other` is every other Python
value. That includes `bool`: `sqlite_escape` tests the exact type, so it does not
treat a `bool` as an `int`. Raised exceptions are `Failure` values of `Wrappers.Result`.

Every rendering is paired with an independent check:
- The SQLite inlined list is read back by `SqlLiterals`, an idealised reader of
  SQLite's quoted strings, integers (of unbounded size) and comma lists. Reading
  it back gives exactly the values, in order (`Sqlite.ReadListOfValueList`).
- Numbered markers are parsed back to the position they designate
  (`QueryParams.MarkerPosition`).
- The matcher is characterised, for every path, for fixed patterns, for
  `head.**` and for `head.**.tail`.

`Dialects` puts the two dialects behind one entry point, which starts from a
fresh accumulator and returns the SQL text with the bound values.

## Model

| member | source | states |
|---|---|---|
| `Sqlite.In` | sqlbind_t/sqlite.py:19-32 | Empty collection: `0`, parameters untouched. 1 to 10 values: each bound in order after the existing ones, text `field IN (m1, m2, ...)` with the successive markers joined by `, `. More than 10: parameters untouched, success exactly when every value is a string or integer, the text between `IN (` and `)` is exactly the `,`-join (no space) of the escaped values in order, and it reads back as exactly the values. On failure the error names the first value that cannot be inlined |
| `Sqlite.Escape` | sqlbind_t/sqlite.py:35-42 | Succeeds exactly for strings and integers; any other value gives `InvalidType(value)` and no text. A string becomes a quoted literal with no lone quote inside. An integer becomes exactly `str(i)`, which parses back to it. Any escaped value, followed by `,`, `)` or nothing, reads back as that value with the rest untouched |
| `Sqlite.ValueList` | sqlbind_t/sqlite.py:45-47 | Succeeds exactly when every value can be inlined, giving exactly the `,`-join (no space) of their escapes in order. Otherwise the error names the first value that cannot be |
| `Sqlite.ReadListOfValueList` | sqlbind_t/sqlite.py:45-47 | Reading the `,`-joined escaped list back with SQLite's literal syntax gives exactly the original values, in order |
| `Sqlite.ReadQuotedOfDoubleQuotes` | sqlbind_t/sqlite.py:38-39 | Un-doubling the escaped body recovers the string. The closing quote ends the literal exactly, leaving what follows intact |
| `Sqlite.DoubleQuotesHasNoLoneQuote` | sqlbind_t/sqlite.py:39 | After `replace("'", "''")`, every quote in the body is part of a doubled pair |
| `Dialects.SqliteThresholdIsExclusive` | sqlbind_t/sqlite.py:17-32 | Ten values are all bound as parameters; eleven bind none |
| `Dialects.SqliteInliningExamples` | sqlbind_t/sqlite.py:35-42 | `it's` escapes to `'it''s'`, -42 to `-42`, 0 to `0`, and a non-string, non-number value fails |
| `Dialects.RenderIn` | sqlbind_t/postgresql.py:12-17 | For both dialects (PostgreSQL as here, SQLite as in sqlbind_t/sqlite.py:19-32): an empty collection gives the dialect's false constant with no bound values. PostgreSQL binds exactly the one array value and its text is `field = ANY(m)` with `m` the first marker. SQLite binds the values themselves up to 10, with the text `field IN (m1, m2, ...)` of the markers for positions 1 to n. Above 10 it binds none; it then succeeds exactly when every value is a string or an integer, with the text `field IN (e1,e2,...)` of the escaped values. Only SQLite's inlining path can fail |
| `Postgresql.In` | sqlbind_t/postgresql.py:12-17 | Empty collection: `FALSE`, parameters untouched. Otherwise exactly one parameter is appended: the whole collection as an array, earlier entries unchanged. The text is `field = ANY(?)` in the default style, and in the dollar style `field = ANY($n)` with `n` the new parameter's 1-based position, so the marker designates it |
| `Postgresql.OneParameterWhateverTheSize` | sqlbind_t/postgresql.py:17 | From a fresh accumulator, any non-empty collection leaves exactly one bound value: the collection |
| `Postgresql.RenderExamples` | tests/test_postgresql.py:8-15 | `val.IN([])` gives `FALSE` and no values. `val.IN([1, 'boo'])` gives `val = ANY(?)`, and `val = ANY($1)` with dollar markers, binding `[[1, 'boo']]` |
| `QueryParams.Compile` | sqlbind_t/postgresql.py:17 | Appends the value after all earlier ones, which stay unchanged, and keeps the style. The marker is `?` in the default style and `$` followed by the 1-based new position in the dollar style, which designates that position |
| `QueryParams.CompileAll` | sqlbind_t/sqlite.py:31 | One compile per value, in order: the values are appended in order and the k-th marker is the one for the k-th new position |
| `QueryParams.CompileAllMarkersDesignateValues` | sqlbind_t/sqlite.py:31 | With dollar markers, the k-th marker emitted designates the position that holds the k-th value |
| `QueryParams.MarkerPositionOfMarker` | tests/test_postgresql.py:12-15 | The dollar marker made for position i (`$` followed by i+1) parses back to i |
| `Decimal.NatToString` | sqlbind_t/sqlite.py:40-41 | `str(n)` is a non-empty string of digits, with no leading zero except for `0` itself |
| `Decimal.IntToString` | sqlbind_t/sqlite.py:40-41 | `str(i)` is the decimal text of `i` for `i >= 0`, and `-` followed by the decimal text of `-i` otherwise |
| `Decimal.ParseIntRoundTrip` | sqlbind_t/sqlite.py:40-41 | Parsing `str(i)` gives back `i` |
| `Decimal.NatToStringInjective` | sqlbind_t/sqlite.py:40-41 | Different numbers never share a decimal text |
| `SqlLiterals.ReadNumberOfIntToString` | sqlbind_t/sqlite.py:40-41 | An inlined integer, followed by anything but a digit, is read back as that integer with the rest untouched |
| `ScopeMatch.FixedPatternMatch` | tests/test_tfstring.py:48-50 | A pattern without `**` matches exactly the paths of its own length whose segments match one for one, `*` matching any single segment (both directions) |
| `ScopeMatch.TrailingDoubleStar` | tests/test_tfstring.py:52-53 | `head.**` matches exactly the paths whose first segments match `head`, whatever follows |
| `ScopeMatch.InteriorDoubleStar` | tests/test_tfstring.py:55-58 | `head.**.tail` matches exactly the paths at least as long as head and tail together, starting with a match of `head` and ending with a match of `tail` |
| `ScopeMatch.DoubleStarMatchesAll` | tests/test_tfstring.py:63 | The one-segment pattern `**` matches every segment list |
| `ScopeMatch.BareDoubleStarMatchesEveryModule` | tests/test_tfstring.py:63 | `match_module(name, '**')` holds for every module name |
| `ScopeMatch.StarTakesOneSegment` | tests/test_tfstring.py:49 | `mod.*.foo` matches `mod.bar.foo` |
| `ScopeMatch.StarTakesNoMore` | tests/test_tfstring.py:50 | `mod.*.foo` does not match `mod.bar.boo.foo` |
| `ScopeMatch.TrailingDoubleStarExample` | tests/test_tfstring.py:53 | `mod.**` matches `mod.bar.boo.foo` |
| `ScopeMatch.InteriorDoubleStarTakesOne` | tests/test_tfstring.py:55 | `mod.**.foo` matches `mod.bar.foo` |
| `ScopeMatch.InteriorDoubleStarTakesTwo` | tests/test_tfstring.py:56 | `mod.**.foo` matches `mod.bar.boo.foo` |
| `ScopeMatch.InteriorDoubleStarTakesNone` | tests/test_tfstring.py:57 | `mod.**.foo` matches `mod.foo` |
| `ScopeMatch.InteriorDoubleStarKeepsSuffix` | tests/test_tfstring.py:58 | `mod.**.foo` does not match `mod.bar.boo` |
| `ScopeMatch.AnchoredMatch` | tests/test_tfstring.py:60 | `tests.*` matches `tests.test_sqlbind_t` |
| `ScopeMatch.AnchoredMismatch` | tests/test_tfstring.py:61 | `tests.*` does not match `tests.pkg.test_sqlbind_t` |
| `ScopeMatch.InScope` | conftest.py:7 | A module is in scope exactly when some configured pattern matches it |
| `TemplateCheck.CheckTemplate` | tests/test_tfstring.py:34-45 | Succeeds exactly for a transformed, prefixed template and returns its segments unchanged; a plain string is refused with `NotPrefixed` |
| `TemplateCheck.CheckOfTransform` | tests/test_tfstring.py:18-45 | A transformed f-string passes the check exactly when it starts with the marker. Then its first segment is the leading literal with exactly the marker removed and every other segment is unchanged, in order; it keeps its segment count, its static text is the original minus exactly the marker, and its placeholders are the original ones, values included, in source order |
| `TemplateCheck.CheckExamples` | tests/test_tfstring.py:29-45 | `t(f'@SELECT {name}')` gives `SELECT ` then the placeholder holding `zoom`; `t(f'SELECT {name}')` fails |

## Left out

- Sqlite.Escape: integers are unbounded. CPython's `str(int)` raises `ValueError` for integers of more than 4300 digits (the default `int_max_str_digits`), where the model still succeeds. SQLite reads an inlined integer literal outside [-2^63, 2^63-1] as a REAL, where `SqlLiterals` reads it exactly; so the read-back is exact only within the 64-bit range.
- Floats: `sqlite_escape` also inlines floats via `str(float)`. Only integers are modelled, and a float would be an `Other`.
- `safe_str` is modelled as a field's name, touching no parameters. Its source (the base dialect) is not part of this model. In the source it is called before the threshold test and could bind parameters for non-trivial fields.
- The `QueryParams` classes are not part of this model. The accumulator and its two marker styles follow tests/test_postgresql.py. Dollar markers are taken to be `$` followed by the 1-based position; other styles are not modelled.
- The base `Dialect.render`, the other operators, and the condition builders (`E`, `AND_`, `WHERE`, `not_none`, `cond`) are not part of this model. Neither is optional-filter elision (tests/test_readme.py:60-72). They are not modelled.
- The AST rewriting of `transform_fstrings` and the import hook installed by `tfstring.init` (conftest.py:7) are not modelled: both are metaprogramming over the Python runtime. Of the hook, only its module check is modelled (`ScopeMatch.InScope`). `init` takes a list of patterns (conftest.py:7); the model assumes a module is in scope when any of them matches. `TemplateCheck.Transform` keeps only their observable effect. A prefixed f-string becomes its segment list with the marker stripped from the leading literal; any other f-string stays an ordinary string (`Plain`), whose formatted characters are not modelled.
- `TemplateCheck.Transform` keeps the stripped leading literal even when it is empty (`f'@{x}'`). Its tests do not settle this.
- `ScopeMatch.Match` follows the behaviour tests/test_tfstring.py:48-63 asserts, with `*` and `**` taken as whole segments only. Pattern validation at configuration time is not modelled.
- Error messages: the error values are modelled, but not the message text (`Invalid type: ...`; the test only looks for `prefixed f-string`).
- Test harnesses (tests/test_readme.py, tests/helpers.py, the conftest.py fixtures and `connection` stub): these execute code and remap line numbers, and are out of scope.
