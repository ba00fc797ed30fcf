/** Serialisation of a Value to its wire bytes (Value.Marshal and helpers). */
module RespMarshal {
  import opened RespValue
  import Decimal

  const CRLF: string := "\r\n"

  /** The type names Marshal has an encoding for. */
  predicate Encodable(typ: string) {
    typ in {StringType, BulkType, ArrayType, ErrorType, NullType}
  }

  /** Tag byte that starts the encoding of an encodable type name. */
  function LeadingByte(typ: string): char
    requires Encodable(typ)
  {
    if typ == StringType then StringTag
    else if typ == ErrorType then ErrorTag
    else if typ == ArrayType then ArrayTag
    else BulkTag
  }

  /**
   * Dispatch on the type name. Every encodable kind starts with its tag
   * byte (null with the bulk tag), and every other type name, "int"
   * included, encodes to no bytes at all.
   */
  function Marshal(v: Value): (r: string)
    ensures Encodable(v.typ) ==> |r| > 0 && r[0] == LeadingByte(v.typ)
    ensures !Encodable(v.typ) ==> r == []
    decreases v, 1
  {
    if v.typ == StringType then MarshalString(v)
    else if v.typ == BulkType then MarshalBulk(v)
    else if v.typ == ArrayType then MarshalArray(v)
    else if v.typ == ErrorType then MarshalError(v)
    else if v.typ == NullType then MarshalNull()
    else []
  }

  function MarshalString(v: Value): string {
    [StringTag] + v.str + CRLF
  }

  function MarshalBulk(v: Value): string {
    [BulkTag] + Decimal.Itoa(|v.bulk|) + CRLF + v.bulk + CRLF
  }

  function MarshalArray(v: Value): string
    decreases v, 0
  {
    [ArrayTag] + Decimal.Itoa(|v.arr|) + CRLF + MarshalAll(v.arr)
  }

  /** The append loop of marshalArray: the element encodings, concatenated in order. */
  function MarshalAll(vs: seq<Value>): string
    decreases vs, 2
  {
    if vs == [] then [] else Marshal(vs[0]) + MarshalAll(vs[1..])
  }

  function MarshalError(v: Value): string {
    [ErrorTag] + v.str + CRLF
  }

  function MarshalNull(): string {
    "$-1\r\n"
  }

  /** Null encodes to the null bulk string whatever its other fields hold. */
  lemma NullEncoding(v: Value)
    requires v.typ == NullType
    ensures Marshal(v) == "$-1\r\n"
  {
  }

  /** A bulk string costs its payload, its decimal length and five framing bytes. */
  lemma BulkEncodingLength(v: Value)
    requires v.typ == BulkType
    ensures |Marshal(v)| == |v.bulk| + |Decimal.Itoa(|v.bulk|)| + 5
    ensures Marshal(v)[|Marshal(v)| - 2..] == CRLF
  {
  }

  /** A simple string and an error with the same text differ in their first byte only. */
  lemma StringAndErrorDifferInTag(v: Value)
    ensures var s := Marshal(v.(typ := StringType));
            var e := Marshal(v.(typ := ErrorType));
            |s| == |e| && s[0] != e[0] && s[1..] == e[1..]
  {
  }

  /** Concatenation of element lists gives concatenation of their encodings. */
  lemma {:induction false} MarshalAllAppend(a: seq<Value>, b: seq<Value>)
    ensures MarshalAll(a + b) == MarshalAll(a) + MarshalAll(b)
  {
    if a != [] {
      assert (a + b)[0] == a[0] && (a + b)[1..] == a[1..] + b;
      MarshalAllAppend(a[1..], b);
    } else {
      assert a + b == b;
    }
  }

  /** The length of an array's element part is the sum of its elements' lengths. */
  function EncodedLength(vs: seq<Value>): nat {
    if vs == [] then 0 else |Marshal(vs[0])| + EncodedLength(vs[1..])
  }

  lemma {:induction false} MarshalAllLength(vs: seq<Value>)
    ensures |MarshalAll(vs)| == EncodedLength(vs)
  {
    if vs != [] {
      MarshalAllLength(vs[1..]);
    }
  }
}
