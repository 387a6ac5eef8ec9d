# Text_to_SQL: result shapes and fenced SQL, in Dafny

The application turns a natural-language question into SQL with a hosted
language model, runs the SQL on MySQL and shows the answer. Everything in
that pipeline is a call into Flask, LangChain, the Gemini client or the
database driver. Two pieces are the application's own logic, and this
project models them:

- **Fenced-SQL extraction** (`get_sql_query_from_question`, app.py:55-58).
  The model's completion is searched for
  `` ```sql\s*(.*?)\s*``` `` with `re.DOTALL | re.IGNORECASE`. When the
  pattern matches, the result is `group(1).strip()`. Otherwise the
  completion is returned unchanged. `SqlFence` describes the pattern
  declaratively (`IsMatch`). It also states the order in which a
  backtracking matcher tries candidates (`TriedFirst`): leftmost opener,
  greedy `\s*`, lazy group, greedy `\s*`. The scanning functions behind
  `Search` are proved to return exactly the first candidate in that order,
  and to return nothing when no candidate exists. One consequence is proved:
  the group of the first match has no whitespace at either end, so the
  `.strip()` on line 57 never changes it.
- **Result-shape classification** (`parse_results`, app.py:65-99). Whatever
  `db.run` returned is tagged `empty`, `text`, `single`, `table` or `list`,
  with a payload. `ResultShape` models the returned Python value as
  `Value = PyNone | Str | List | Tuple | Scalar(int)`. Python truthiness is
  `Truthy`. `len()` is `Len`, which is `None` where Python raises
  `TypeError`. `ast.literal_eval` is a parameter `literalEval` of type
  `string -> Option<Value>`, where `None` is the path taken by the bare
  `except`. The function returns `Result<Parsed, PyError>`, because
  `len(results[0])` on line 88 raises when the only row has no length. The
  `"type"` key is the datatype `Shape`, and `TypeName` gives the string the
  source stores.

`PyText` models Python's `str.isspace()` (`IsSpace`) and `str.strip()`
(`Strip`). The `\s` class of a `str` pattern accepts the same characters
as `str.isspace()`, so `SqlFence` and `ResultShape` share this module.
Under `re.IGNORECASE` the pattern letter `s` also matches U+017F (LATIN
SMALL LETTER LONG S). The letters `q` and `l` match only their two ASCII
cases.

The code has five tags and decides them by falsiness, by string form, by
a one-row/one-cell test, and by whether every row is a tuple.

## Model

| member | source | states |
|---|---|---|
| `PyText.IsSpace` | app.py:55 | `str.isspace()`, which is also the `\s` class of the pattern and the set `strip()` removes at app.py:73: the ASCII whitespace is in it; backticks, brackets, letters and digits are not |
| `PyText.Strip` | app.py:73 | `s.strip()` has no whitespace at either end, is an infix of `s`, and only whitespace lies outside it |
| `PyText.StripUnique` | app.py:73 | any infix with no surrounding whitespace and only whitespace outside it is `Strip(s)`, so the two descriptions agree |
| `PyText.StripOfStripped` | app.py:57 | a string without surrounding whitespace is its own strip |
| `PyText.StripIdempotent` | app.py:73 | stripping twice gives the same as stripping once |
| `PyText.SkipSpace` | app.py:55 | the greedy `\s*` ends at the first non-whitespace character, or at the end of the string |
| `PyText.BackOverSpace` | app.py:55 | the trailing `\s*` before the fence starts right after the last non-whitespace character of the group |
| `SqlFence.FindOpener` | app.py:55 | returns the first position at or after `i` where a case-insensitive `` ```sql `` starts, or none if there is no such position |
| `SqlFence.FindFence` | app.py:55 | returns the first position at or after `i` where `` ``` `` starts, or none if there is no such position |
| `SqlFence.Search` | app.py:55 | `re.search`: what it returns is a match of the pattern; its full meaning (first match in backtracking order, none exactly when no match exists) is given by `SqlFence.SearchIsFirstMatch` |
| `SqlFence.SearchIsFirstMatch` | app.py:55 | `re.search` finds the match a backtracking matcher tries first (leftmost, greedy, lazy, greedy), and finds nothing exactly when no match exists |
| `SqlFence.FirstMatchUnique` | app.py:55 | there is at most one first match |
| `SqlFence.ExtractSql` | app.py:55-58 | no match gives back the completion unchanged; otherwise the result is the stripped group 1 of the first match |
| `SqlFence.FirstGroupIsClean` | app.py:55-57 | group 1 of the first match has no whitespace at either end and no `` ``` `` inside it |
| `SqlFence.ExtractedQueryIsClean` | app.py:55-58 | when any match exists, the query is exactly group 1 of the first match, with no surrounding whitespace and no `` ``` `` |
| `SqlFence.UnfencedIsUnchanged` | app.py:55-58 | a completion without any `` ``` `` is returned unchanged |
| `SqlFence.ExtractSqlIdempotent` | app.py:52-58 | extracting from an already extracted query changes nothing |
| `ResultShape.TypeName` | app.py:68-99 | the `"type"` string is one of `empty`, `text`, `single`, `table`, `list` |
| `ResultShape.Truthy` | app.py:67 | `not results` holds exactly for `None`, `""`, `[]`, `()` and `0` |
| `ResultShape.Len` | app.py:86-88 | `len()` exists exactly for strings, lists and tuples, and is non-zero exactly for truthy ones |
| `ResultShape.OnlyItem` | app.py:90 | `x[0]` of a length-1 value: the string itself for a string, the only element for a list or tuple |
| `ResultShape.LooksLikeList` | app.py:74 | `startswith('[') and endswith(']')` holds only for strings of at least two characters, opening with `[` and closing with `]` |
| `ResultShape.AllTuples` | app.py:88-91 | `all(isinstance(row, tuple) for row in rows)`; when it holds, every row has a length, so the `len(results[0])` test on line 88 cannot raise on a table |
| `ResultShape.ClassifyRows` | app.py:84-99 | a non-list is `single` with itself as data; a list raises exactly when it has one row and that row has no length; the shape is never `text` and respects the shape invariant |
| `ResultShape.ParseResults` | app.py:65-99 | every result respects the shape invariant: `empty` carries `None`; `text` carries a stripped string; `table` carries a non-empty list of tuples; `list` carries a non-empty list that is not all tuples; `text` only ever comes from a string input, stripped |
| `ResultShape.FalsyIsEmpty` | app.py:67-68 | `None`, `""`, `[]`, `()` and `0` give `empty` with data `None` |
| `ResultShape.PlainStringIsText` | app.py:71-74 | a string that does not both start with `[` and end with `]` after stripping gives `text` with the stripped string |
| `ResultShape.UnparsableListIsText` | app.py:74-80 | a bracketed string that `literal_eval` rejects gives `text` with the stripped string |
| `ResultShape.ParsedStringIsClassified` | app.py:74-99 | a bracketed string that `literal_eval` accepts is classified as the parsed value, with no second falsiness test: a parsed `[]` is `empty`, a parsed non-list is `single` |
| `ResultShape.ParsedListIsClassifiedAsList` | app.py:78-96 | a list parsed out of a string is classified exactly as that list given directly |
| `ResultShape.SingleCellIsSingle` | app.py:88-90 | one row of length 1 gives `single` with `results[0][0]` as data |
| `ResultShape.UnsizedSingleRowRaises` | app.py:88 | one row with no length (`None`, a number) makes `len` raise `TypeError` |
| `ResultShape.RowsAreTableOrList` | app.py:91-96 | any other non-empty list is `table` if every row is a tuple and `list` otherwise, with the list unchanged as data |
| `ResultShape.OtherTruthyIsSingle` | app.py:98-99 | a truthy value that is neither a string nor a list, such as a tuple or a number, gives `single` with the value itself |
| `ResultShape.ParseRaisesOnlyOnUnsizedRow` | app.py:65-99 | the only error is a one-row list, given directly or parsed from the string, whose row has no length |
| `ResultShape.TextComesFromString` | app.py:71-82 | `text` comes only from a string input; its data is the stripped input; if bracketed, `literal_eval` rejected it |
| `ResultShape.TextIsStable` | app.py:67-82 | text fed back in is shown the same way, except the empty string, which is falsy and becomes `empty` |

## Left out

- Flask routes `index` and `query` (app.py:101-133): HTTP plumbing, `jsonify`, status codes and the catch-all handler that turns the `TypeError` above into a 500 response.
- Configuration and connection set-up (app.py:11-23): environment variables and the MySQL URI handed to SQLAlchemy.
- `get_schema_from_db` and `execute_sql_query` (app.py:39-43, 60-63): thin calls into LangChain's `SQLDatabase` and the database driver.
- The prompt template, the Gemini client and `sql_chain.invoke` (app.py:26-50, 54): a network call to a hosted model. Its output is the `completion` argument of `ExtractSql`.
- The internals of `ast.literal_eval`: Python's literal grammar is not modelled. It is the `literalEval` parameter, and the model assumes it is deterministic, which `literal_eval` is.
- Python values other than `None`, `str`, `list`, `tuple` and integers. `bool` is covered by `Scalar` (0 and 1). Floats, `Decimal`, dates, dictionaries and bytes are not modelled. `Scalar` stands for any value that has no length and whose truthiness is "non-zero".
- The model compares shapes as a datatype. The JSON strings appear only through `TypeName`.
