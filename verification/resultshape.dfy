/**
 * parse_results: classification of what a database call returned into one
 * of the shapes Empty, Text, Single, Table and Rows, each with a
 * payload, for the page to pick a display.
 */
module ResultShape {
  import opened Wrappers
  import opened PyText

  /** The Python values a query result can be made of. */
  datatype Value =
    | PyNone
    | Str(s: string)
    | List(items: seq<Value>)
    | Tuple(items: seq<Value>)
    | Scalar(n: int)

  /** The values of the "type" key of the result. */
  datatype Shape = Empty | Text | Single | Table | Rows

  /** The string parse_results stores under "type" for each shape. */
  function TypeName(shape: Shape): (name: string)
    ensures name in {"empty", "text", "single", "table", "list"}
  {
    match shape
    case Empty => "empty"
    case Text => "text"
    case Single => "single"
    case Table => "table"
    case Rows => "list"
  }

  /** The dictionary {"type": TypeName(shape), "data": data} that parse_results returns. */
  datatype Parsed = Parsed(shape: Shape, data: Value)

  /** The exception raised by len() on a value that has no length. */
  datatype PyError = TypeError

  /** Python truthiness: None, "", [], () and 0 are false, everything else is true. */
  predicate Truthy(v: Value)
    ensures !Truthy(v) <==> v in {PyNone, Str(""), List([]), Tuple([]), Scalar(0)}
  {
    match v
    case PyNone => false
    case Str(s) => s != []
    case List(xs) => xs != []
    case Tuple(xs) => xs != []
    case Scalar(n) => n != 0
  }

  /** len(v), or None where len raises TypeError. */
  function Len(v: Value): (r: Option<nat>)
    ensures r.Some? <==> (v.Str? || v.List? || v.Tuple?)
    ensures r.Some? ==> (r.value > 0 <==> Truthy(v))
  {
    match v
    case Str(s) => Some(|s|)
    case List(xs) => Some(|xs|)
    case Tuple(xs) => Some(|xs|)
    case PyNone => None
    case Scalar(_) => None
  }

  /** v[0] for a sized v of length 1; indexing a string gives a one-character string. */
  function OnlyItem(v: Value): (r: Value)
    requires Len(v) == Some(1)
    ensures v.Str? ==> r == v
    ensures v.List? || v.Tuple? ==> [r] == v.items
  {
    match v
    case Str(s) => Str([s[0]])
    case List(xs) => xs[0]
    case Tuple(xs) => xs[0]
  }

  /**
   * all(isinstance(row, tuple) for row in rows). Every row of such a list
   * has a length, so the len(results[0]) test never raises on a table.
   */
  predicate AllTuples(rows: seq<Value>)
    ensures AllTuples(rows) ==> forall r :: r in rows ==> Len(r).Some?
  {
    forall row :: row in rows ==> row.Tuple?
  }

  predicate StartsWith(s: string, c: char) { |s| > 0 && s[0] == c }

  predicate EndsWith(s: string, c: char) { |s| > 0 && s[|s| - 1] == c }

  /** A stripped string that looks like the repr of a list. */
  predicate LooksLikeList(s: string)
    ensures LooksLikeList(s) ==> |s| >= 2 && s[0] == '[' && s[|s| - 1] == ']'
  {
    StartsWith(s, '[') && EndsWith(s, ']')
  }

  /** The shapes a result can take, with the payload each one allows. */
  predicate WellFormed(p: Parsed) {
    && (p.shape == Empty ==> p.data == PyNone)
    && (p.shape == Text ==> p.data.Str? && IsStripped(p.data.s))
    && (p.shape == Table ==> p.data.List? && p.data.items != [] && AllTuples(p.data.items))
    && (p.shape == Rows ==> p.data.List? && p.data.items != [] && !AllTuples(p.data.items))
  }

  /**
   * The part of parse_results after a string has been turned into a value:
   * a list is classified by its length and its rows, anything else is a
   * single value.
   */
  function ClassifyRows(v: Value): (r: Result<Parsed, PyError>)
    ensures r.Ok? ==> WellFormed(r.value) && r.value.shape != Text
    ensures r.Err? <==> v.List? && |v.items| == 1 && Len(v.items[0]).None?
    ensures !v.List? ==> r == Ok(Parsed(Single, v))
  {
    if v.List? then
      var rows := v.items;
      if |rows| == 0 then Ok(Parsed(Empty, PyNone))
      else if |rows| == 1 && Len(rows[0]).None? then Err(TypeError)
      else if |rows| == 1 && Len(rows[0]) == Some(1) then Ok(Parsed(Single, OnlyItem(rows[0])))
      else if AllTuples(rows) then Ok(Parsed(Table, v))
      else Ok(Parsed(Rows, v))
    else
      Ok(Parsed(Single, v))
  }

  /** The Text result for an already stripped string. */
  function AsText(text: string): (p: Parsed)
    requires IsStripped(text)
    ensures WellFormed(p) && p.shape == Text
  {
    Parsed(Text, Str(text))
  }

  /**
   * parse_results, with ast.literal_eval passed in as `literalEval`
   * (None where it raises, which the bare except turns into Text).
   */
  function ParseResults(results: Value, literalEval: string -> Option<Value>): (r: Result<Parsed, PyError>)
    ensures r.Ok? ==> WellFormed(r.value)
    ensures r.Ok? && r.value.shape == Text ==> results.Str? && r.value.data == Str(Strip(results.s))
  {
    if !Truthy(results) then Ok(Parsed(Empty, PyNone))
    else if results.Str? then
      var text := Strip(results.s);
      if LooksLikeList(text) then
        match literalEval(text)
        case None => Ok(AsText(text))
        case Some(v) => ClassifyRows(v)
      else
        Ok(AsText(text))
    else
      ClassifyRows(results)
  }

  /** None, "", [], () and 0 are all Empty with no data. */
  lemma FalsyIsEmpty(results: Value, literalEval: string -> Option<Value>)
    requires !Truthy(results)
    ensures ParseResults(results, literalEval) == Ok(Parsed(Empty, PyNone))
  {
  }

  /** A string that does not look like a list after stripping is shown as stripped text. */
  lemma PlainStringIsText(s: string, literalEval: string -> Option<Value>)
    requires s != [] && !LooksLikeList(Strip(s))
    ensures ParseResults(Str(s), literalEval) == Ok(Parsed(Text, Str(Strip(s))))
  {
  }

  /** A bracketed string that literal_eval rejects is shown as stripped text. */
  lemma UnparsableListIsText(s: string, literalEval: string -> Option<Value>)
    requires s != [] && LooksLikeList(Strip(s)) && literalEval(Strip(s)).None?
    ensures ParseResults(Str(s), literalEval) == Ok(Parsed(Text, Str(Strip(s))))
  {
  }

  /**
   * A string that literal_eval turns into a value is classified as that
   * value would be, without the falsiness test: a parsed [] is "empty" and
   * a parsed non-list is "single", even a falsy one.
   */
  lemma ParsedStringIsClassified(s: string, literalEval: string -> Option<Value>, v: Value)
    requires s != [] && LooksLikeList(Strip(s)) && literalEval(Strip(s)) == Some(v)
    ensures ParseResults(Str(s), literalEval) == ClassifyRows(v)
    ensures v == List([]) ==> ParseResults(Str(s), literalEval) == Ok(Parsed(Empty, PyNone))
    ensures !v.List? ==> ParseResults(Str(s), literalEval) == Ok(Parsed(Single, v))
  {
  }

  /** Parsing a list out of a string classifies it exactly as the list itself. */
  lemma ParsedListIsClassifiedAsList(s: string, literalEval: string -> Option<Value>, rows: seq<Value>)
    requires s != [] && LooksLikeList(Strip(s)) && literalEval(Strip(s)) == Some(List(rows))
    ensures ParseResults(Str(s), literalEval) == ParseResults(List(rows), literalEval)
  {
    ParsedStringIsClassified(s, literalEval, List(rows));
  }

  /** One row of one cell is shown as that cell. */
  lemma SingleCellIsSingle(row: Value, literalEval: string -> Option<Value>)
    requires Len(row) == Some(1)
    ensures ParseResults(List([row]), literalEval) == Ok(Parsed(Single, OnlyItem(row)))
    ensures row.Tuple? ==> ParseResults(List([row]), literalEval) == Ok(Parsed(Single, row.items[0]))
  {
  }

  /** One row that has no length makes len() raise. */
  lemma UnsizedSingleRowRaises(row: Value, literalEval: string -> Option<Value>)
    requires Len(row).None?
    ensures ParseResults(List([row]), literalEval) == Err(TypeError)
  {
  }

  /** Any other non-empty list is a table when every row is a tuple, else a plain list; the rows are kept as they are. */
  lemma RowsAreTableOrList(rows: seq<Value>, literalEval: string -> Option<Value>)
    requires rows != []
    requires |rows| == 1 ==> Len(rows[0]).Some? && Len(rows[0]) != Some(1)
    ensures AllTuples(rows) ==> ParseResults(List(rows), literalEval) == Ok(Parsed(Table, List(rows)))
    ensures !AllTuples(rows) ==> ParseResults(List(rows), literalEval) == Ok(Parsed(Rows, List(rows)))
  {
  }

  /** A truthy value that is neither a string nor a list (a tuple, a number) is shown as a single value. */
  lemma OtherTruthyIsSingle(results: Value, literalEval: string -> Option<Value>)
    requires Truthy(results) && !results.Str? && !results.List?
    ensures ParseResults(results, literalEval) == Ok(Parsed(Single, results))
  {
  }

  /**
   * parse_results raises only on a one-row list whose row has no length,
   * whether that list was given directly or parsed from a string.
   */
  lemma ParseRaisesOnlyOnUnsizedRow(results: Value, literalEval: string -> Option<Value>)
    ensures ParseResults(results, literalEval).Err? ==>
      exists row :: Len(row).None?
        && (results == List([row])
            || (results.Str? && literalEval(Strip(results.s)) == Some(List([row]))))
  {
    if ParseResults(results, literalEval).Err? {
      if results.Str? {
        var v := literalEval(Strip(results.s)).value;
        assert ClassifyRows(v).Err?;
        assert v == List([v.items[0]]);
      } else {
        assert ClassifyRows(results).Err?;
        assert results == List([results.items[0]]);
      }
    }
  }

  /** Where Text comes from: a string, stripped, that literal_eval did not accept or was not tried on. */
  lemma TextComesFromString(results: Value, literalEval: string -> Option<Value>, t: string)
    requires ParseResults(results, literalEval) == Ok(Parsed(Text, Str(t)))
    ensures results.Str? && t == Strip(results.s)
    ensures LooksLikeList(t) ==> literalEval(t).None?
  {
  }

  /**
   * Text that parse_results shows is shown the same way when fed back in,
   * unless it is the empty string, which is falsy and so Empty.
   */
  lemma TextIsStable(results: Value, literalEval: string -> Option<Value>, t: string)
    requires ParseResults(results, literalEval) == Ok(Parsed(Text, Str(t)))
    ensures t != [] ==> ParseResults(Str(t), literalEval) == Ok(Parsed(Text, Str(t)))
    ensures t == [] ==> ParseResults(Str(t), literalEval) == Ok(Parsed(Empty, PyNone))
  {
    TextComesFromString(results, literalEval, t);
    StripIdempotent(results.s);
  }
}
