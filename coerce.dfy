/**
 * The JavaScript conversions the views apply to cell values: truthiness,
 * `String(v)`, and `parseFloat(text) || 0`.
 */
module Coerce {

  import opened Seqs
  import opened Types

  /** `parseFloat`: the number a text starts with, None where it yields NaN. */
  type NumberParser = string -> Option<real>

  /** `String(n)` for a number. */
  type NumberPrinter = real -> string

  /** `row[key]`: None stands for `undefined`. */
  function CellAt(row: Row, key: string): (v: Option<Value>)
    ensures v.Some? <==> key in row
    ensures v.Some? ==> v.value == row[key]
  {
    if key in row then Some(row[key]) else None
  }

  /** JavaScript truthiness: undefined, null, '', 0 and false are falsy; a file record is an object. */
  predicate Truthy(v: Option<Value>)
  {
    match v
    case None => false
    case Some(Str(s)) => s != ""
    case Some(Num(n)) => n != 0.0
    case Some(Bool(b)) => b
    case Some(Null) => false
    case Some(FileVal(_)) => true
  }

  /** `String(v)`. */
  function Stringify(v: Value, show: NumberPrinter): string
  {
    match v
    case Str(s) => s
    case Num(n) => show(n)
    case Bool(b) => if b then "true" else "false"
    case Null => "null"
    case FileVal(_) => "[object Object]"
  }

  /** `parseFloat(text) || 0`: never fails, NaN (and 0) become 0. */
  function ParseOrZero(text: string, parse: NumberParser): (n: real)
    ensures parse(text).None? ==> n == 0.0
    ensures parse(text).Some? ==> n == parse(text).value
  {
    match parse(text)
    case None => 0.0
    case Some(x) => x
  }

  /** The value a column of this type holds once it has been written through a typed input. */
  predicate Conforms(v: Value, ct: ColumnType)
  {
    match ct
    case Number => v.Num?
    case Boolean => v.Bool?
    case File => v.FileVal? || v.Null?
    case _ => v.Str?
  }

  /**
   * `parseFloat` reads back what `String` printed for `n`; for 0 the edit
   * text is '' (0 is falsy), which must parse to NaN or 0.
   */
  predicate ReadsBack(n: real, show: NumberPrinter, parse: NumberParser)
  {
    if n == 0.0 then parse("") == None || parse("") == Some(0.0)
    else parse(show(n)) == Some(n)
  }
}
