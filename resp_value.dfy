/**
 * The wire value of the Redis serialization protocol (RESP2), as a record:
 * a type name plus one payload field per kind, of which the kind in use is
 * meaningful and the others are left at their zero values.
 */
module RespValue {

  /**
   * A decoded or to-be-encoded frame. `typ` selects the kind; `str` is the
   * payload of simple strings and errors, `bulk` of bulk strings, `arr` the
   * elements of an array and `num` an integer payload. Bytes are modelled as
   * characters, one character per byte.
   */
  datatype Value = Value(typ: string, str: string, bulk: string, arr: seq<Value>, num: int)

  // Leading bytes of the frame kinds on the wire.
  const BulkTag: char := '$'
  const ArrayTag: char := '*'
  const StringTag: char := '+'
  const ErrorTag: char := '-'
  const IntegerTag: char := ':'

  // Type names carried in `typ`.
  const BulkType: string := "bulk"
  const ArrayType: string := "array"
  const StringType: string := "string"
  const ErrorType: string := "error"
  const NullType: string := "null"
  const IntegerType: string := "int"

  /** The Go zero value: empty type name and empty payloads. */
  const Zero: Value := Value("", "", "", [], 0)

  function Bulk(b: string): Value {
    Value(BulkType, "", b, [], 0)
  }

  function SimpleString(s: string): Value {
    Value(StringType, s, "", [], 0)
  }

  function Error(s: string): Value {
    Value(ErrorType, s, "", [], 0)
  }

  function Array(vs: seq<Value>): Value {
    Value(ArrayType, "", "", vs, 0)
  }

  const Null: Value := Value(NullType, "", "", [], 0)

  /** The type name a leading byte stands for, or "" for a byte that is no tag. */
  function TypeOfTag(tag: char): (t: string)
    ensures t == "" <==> tag !in {BulkTag, ArrayTag, StringTag, ErrorTag, IntegerTag}
  {
    if tag == BulkTag then BulkType
    else if tag == ArrayTag then ArrayType
    else if tag == StringTag then StringType
    else if tag == ErrorTag then ErrorType
    else if tag == IntegerTag then IntegerType
    else ""
  }

  /**
   * The five tags are pairwise distinct and so are the six type names, so a
   * leading byte names at most one frame kind; the zero value's type name is
   * none of them.
   */
  lemma TagsNameOneKind(a: char, b: char)
    requires TypeOfTag(a) != "" && TypeOfTag(a) == TypeOfTag(b)
    ensures a == b
    ensures |{BulkType, ArrayType, StringType, ErrorType, NullType, IntegerType}| == 6
    ensures Zero.typ !in {BulkType, ArrayType, StringType, ErrorType, NullType, IntegerType}
  {
  }
}
