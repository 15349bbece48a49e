/** The values a query binds or inlines, and the fields it mentions. */
module Values {

  /** A Python value reaching a dialect: an `int`, a `str`, a list of values
      (what the PostgreSQL dialect binds as one array parameter), or anything
      else, remembered only by its `repr`. */
  datatype Value =
    | Num(n: int)
    | Str(s: string)
    | Array(items: seq<Value>)
    | Other(repr: string)

  /** A field reference such as `E.val`. */
  datatype Field = Field(name: string)

  /** The identifier text `safe_str` renders for a field; `E.val` gives `val`. */
  function SafeStr(f: Field): string {
    f.name
  }
}
