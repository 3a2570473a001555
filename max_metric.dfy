/**
 * The profiler's MAX metric: which SQL expression it asks for given the
 * column's type, how the MaxFn function is rendered in the default and in
 * the Impala dialect, and the dataframe path that takes the largest of the
 * per-frame maxima.
 */
module MaxMetric {
  import opened Options

  /** The three type classifications the metric consults, left uninterpreted. */
  datatype ColumnType = ColumnType(concatenable: bool, quantifiable: bool, dateTime: bool)

  datatype ProfiledColumn = ProfiledColumn(name: string, colType: ColumnType)

  /** The SQL expressions the metric builds. */
  datatype Expr = Column(name: string) | LenFn(arg: Expr) | MaxFn(arg: Expr)

  /** Impala has its own rendering of MaxFn; `Default` stands for every other dialect. */
  datatype Dialect = Impala | Default

  /** The Python exceptions the dataframe path can raise. */
  datatype PyError = TypeError | ValueError

  datatype PyResult<T> = Value(value: T) | Raised(error: PyError)

  /** The metric's registered name. */
  function Name(): (n: string)
    ensures n == "max"
  {
    "max"
  }

  /** The default rendering of MaxFn around an argument already compiled to `col`. */
  function DefaultMaxSql(col: string): (sql: string)
    ensures |sql| == |col| + 5
    ensures sql[..4] == "MAX(" && sql[4..4 + |col|] == col && sql[4 + |col|..] == ")"
  {
    "MAX(" + col + ")"
  }

  /** The Impala rendering: NaN and infinite values are mapped to null before MAX. */
  function ImpalaMaxSql(col: string): (sql: string)
    ensures |sql| == 3 * |col| + 37
    ensures sql[..14] == "MAX(if(is_nan(" && sql[14..14 + |col|] == col
    ensures sql[14 + |col|..26 + |col|] == ") or is_inf(" && sql[26 + |col|..26 + 2 * |col|] == col
    ensures sql[26 + 2 * |col|..35 + 2 * |col|] == "), null, " && sql[35 + 2 * |col|..35 + 3 * |col|] == col
    ensures sql[35 + 3 * |col|..] == "))"
  {
    "MAX(if(is_nan(" + col + ") or is_inf(" + col + "), null, " + col + "))"
  }

  /** The rendering of MaxFn chosen by dialect: a MAX aggregate call in every dialect. */
  function CompileMaxFn(dialect: Dialect, col: string): (sql: string)
    ensures |sql| >= 5 && sql[..4] == "MAX(" && sql[|sql| - 1] == ')'
    ensures dialect.Impala? <==> |sql| == 3 * |col| + 37
  {
    match dialect
    case Impala => ImpalaMaxSql(col)
    case Default => DefaultMaxSql(col)
  }

  /** Distinct compiled arguments give distinct SQL text, in either dialect. */
  lemma CompileMaxFnInjective(dialect: Dialect, a: string, b: string)
    requires CompileMaxFn(dialect, a) == CompileMaxFn(dialect, b)
    ensures a == b
  {
  }

  /** The SQL expression for the column, or None when MAX does not apply to its type. */
  function Fn(col: ProfiledColumn): (e: Option<Expr>)
    ensures col.colType.concatenable ==> e == Some(MaxFn(LenFn(Column(col.name))))
    ensures !col.colType.concatenable && !col.colType.quantifiable && !col.colType.dateTime ==> e == None
    ensures !col.colType.concatenable && (col.colType.quantifiable || col.colType.dateTime) ==>
              e == Some(MaxFn(Column(col.name)))
    ensures e.Some? <==> col.colType.concatenable || col.colType.quantifiable || col.colType.dateTime
  {
    if col.colType.concatenable then Some(MaxFn(LenFn(Column(col.name))))
    else if !col.colType.quantifiable && !col.colType.dateTime then None
    else Some(MaxFn(Column(col.name)))
  }

  /**
   * The SQL rendering of an expression the metric builds: MaxFn through the
   * dialect's hook, everything else through the SQL compiler, given as
   * `process`.
   */
  function Render(e: Expr, dialect: Dialect, process: Expr -> string): (sql: string)
    ensures e.MaxFn? ==> |sql| >= 5 && sql[..4] == "MAX(" && sql[|sql| - 1] == ')'
    ensures e.MaxFn? ==> (dialect.Impala? <==> |sql| == 3 * |process(e.arg)| + 37)
    ensures e.MaxFn? && dialect.Default? ==> sql[4..|sql| - 1] == process(e.arg)
    ensures !e.MaxFn? ==> sql == process(e)
  {
    match e
    case MaxFn(arg) => CompileMaxFn(dialect, process(arg))
    case _ => process(e)
  }

  /** In the default dialect a concatenable column renders as MAX over its compiled length. */
  lemma FnRendersLength(col: ProfiledColumn, process: Expr -> string)
    requires col.colType.concatenable
    ensures Fn(col).Some?
    ensures Render(Fn(col).value, Default, process) == "MAX(" + process(LenFn(Column(col.name))) + ")"
  {
  }

  /**
   * Python's max over a sequence: scan left to right, keeping the first
   * largest value; an empty sequence raises ValueError.
   */
  function PyMax(xs: seq<int>): (r: PyResult<int>)
    ensures r.Raised? <==> xs == []
    ensures r.Raised? ==> r.error == ValueError
    ensures r.Value? ==> forall i :: 0 <= i < |xs| ==> xs[i] <= r.value
    ensures r.Value? ==> exists i :: 0 <= i < |xs| && xs[i] == r.value
  {
    if xs == [] then Raised(ValueError)
    else if |xs| == 1 then Value(xs[0])
    else
      var best := PyMax(xs[..|xs| - 1]);
      var x := xs[|xs| - 1];
      if x > best.value then Value(x) else best
  }

  /**
   * The dataframe path, over the column's maximum in each frame. A column that
   * is neither quantifiable nor a date-time gives 0 without looking at the
   * frames; otherwise a missing list of frames raises TypeError and an empty
   * one ValueError.
   */
  function DfFn(col: ProfiledColumn, frameMaxima: Option<seq<int>>): (r: PyResult<int>)
    ensures !col.colType.quantifiable && !col.colType.dateTime ==> r == Value(0)
    ensures (col.colType.quantifiable || col.colType.dateTime) && frameMaxima.None? ==> r == Raised(TypeError)
    ensures (col.colType.quantifiable || col.colType.dateTime) && frameMaxima == Some([]) ==> r == Raised(ValueError)
    ensures (col.colType.quantifiable || col.colType.dateTime) && frameMaxima.Some? && frameMaxima.value != [] ==>
              r.Value? &&
              (forall i :: 0 <= i < |frameMaxima.value| ==> frameMaxima.value[i] <= r.value) &&
              (exists i :: 0 <= i < |frameMaxima.value| && frameMaxima.value[i] == r.value)
  {
    if col.colType.quantifiable || col.colType.dateTime then
      match frameMaxima
      case None => Raised(TypeError)
      case Some(maxima) => PyMax(maxima)
    else Value(0)
  }

  /** A concatenable column that is neither quantifiable nor a date-time gets an SQL MAX but a dataframe 0. */
  lemma ConcatenableOnlyPathsDiffer(col: ProfiledColumn, frameMaxima: Option<seq<int>>)
    requires col.colType.concatenable && !col.colType.quantifiable && !col.colType.dateTime
    ensures Fn(col).Some? && DfFn(col, frameMaxima) == Value(0)
  {
  }
}
