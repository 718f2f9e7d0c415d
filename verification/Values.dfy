/** SQL values as the table store and the result sets hold them. */
module Values {
  import opened BigEndian

  datatype Value =
    | NullValue
    | Bool(b: bool)
    | Number(n: int)
    | Text(s: GoString)
    | Real(x: real)
    | NotANumber          // the float that equals nothing, not even itself

  /** A row's columns by name. */
  type Content = map<GoString, Value>
}
