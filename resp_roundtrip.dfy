/**
 * The conditional round trip between the serialiser and the decoder: the
 * decoder gives back every well-formed request frame from its encoding.
 */
module RespRoundTrip {
  import opened Wrappers
  import opened RespValue
  import opened RespRead
  import opened RespMarshal
  import Decimal

  /** No byte of `s` is '\r'. */
  predicate NoCR(s: string) {
    forall i :: 0 <= i < |s| ==> s[i] != '\r'
  }

  /**
   * A request frame that the serialiser and the decoder agree on: a bulk
   * string whose payload holds no '\r', or an array of such frames, with
   * every field the kind does not use left at its zero value (lengths fit
   * a Go int).
   */
  predicate WellFormed(v: Value)
    decreases v
  {
    && v.str == "" && v.num == 0
    && (|| (v.typ == BulkType && v.arr == [] && NoCR(v.bulk) && |v.bulk| <= Decimal.Int64Max)
        || (&& v.typ == ArrayType && v.bulk == "" && |v.arr| <= Decimal.Int64Max
            && forall i :: 0 <= i < |v.arr| ==> WellFormed(v.arr[i])))
  }

  /** What follows a known prefix of the remaining input. */
  lemma Drop(s: string, pos: nat, a: string, b: string, next: nat)
    requires pos <= |s| && s[pos..] == a + b && next == pos + |a|
    ensures next <= |s| && s[next..] == b
    ensures |a| > 0 ==> s[pos] == a[0]
  {
    assert s[next..] == s[pos..][|a|..];
    assert (a + b)[|a|..] == b;
    if |a| > 0 {
      assert s[pos] == s[pos..][0];
    }
  }

  /** A line with no '\r' followed by "\r\n" is read back exactly. */
  lemma LineAtKnown(s: string, pos: nat, line: string, rest: string)
    requires pos <= |s| && s[pos..] == line + CRLF + rest && NoCR(line)
    ensures LineAt(s, pos) == (Success((line, |line| + 2)), pos + |line| + 2)
  {
    var t := line + CRLF + rest;
    assert |t| == |line| + 2 + |rest|;
    forall i | 0 <= i < |line|
      ensures s[pos + i] == line[i]
    {
      assert s[pos + i] == s[pos..][i] == t[i];
    }
    assert s[pos + |line|] == s[pos..][|line|] == t[|line|] == '\r';
    assert FirstCR(s, pos) == pos + |line|;
    assert s[pos..pos + |line|] == line;
  }

  /** The decimal length line that Marshal writes is read back as that length. */
  lemma IntegerAtKnown(s: string, pos: nat, n: nat, rest: string)
    requires n <= Decimal.Int64Max
    requires pos <= |s| && s[pos..] == Decimal.Itoa(n) + CRLF + rest
    ensures var d := Decimal.Itoa(n); IntegerAt(s, pos) == (Success((n, |d| + 2)), pos + |d| + 2)
  {
    var d := Decimal.Itoa(n);
    assert NoCR(d) by {
      forall i | 0 <= i < |d| ensures d[i] != '\r' {
        if d[0] == '-' {
          assert false;
        } else {
          assert Decimal.IsDigit(d[i]);
        }
      }
    }
    LineAtKnown(s, pos, d, rest);
    Decimal.ParseIntOfItoa(n);
  }

  /** The input holds the encoding of the well-formed frame `v` at `pos`, followed by `rest`. */
  predicate EncodedAt(v: Value, s: string, pos: nat, rest: string) {
    WellFormed(v) && pos <= |s| && s[pos..] == Marshal(v) + rest
  }

  /** The input holds the encodings of the well-formed frames `vs` at `pos`, followed by `rest`. */
  predicate AllEncodedAt(vs: seq<Value>, s: string, pos: nat, rest: string) {
    (forall k :: 0 <= k < |vs| ==> WellFormed(vs[k])) && pos <= |s| && s[pos..] == MarshalAll(vs) + rest
  }

  /**
   * Decoding the encoding of a well-formed frame, wherever it sits in the
   * input and whatever follows it, gives the frame back and consumes
   * exactly its encoding.
   */
  lemma {:induction false} ReadMarshalAt(v: Value, s: string, pos: nat, rest: string)
    requires EncodedAt(v, s, pos, rest)
    ensures pos <= |s| && ValueAt(s, pos) == (Success(v), pos + |Marshal(v)|)
    decreases v, 1
  {
    hide *;
    if v.typ == BulkType {
      ReadMarshalBulkAt(v, s, pos, rest);
    } else {
      ReadMarshalArrayAt(v, s, pos, rest);
    }
  }

  /**
   * The header line of a bulk string or an array: the tag byte, then the
   * decimal length read back as that length, then the rest of the input.
   */
  lemma HeaderAt(s: string, pos: nat, tag: char, n: nat, rest: string, next: nat)
    requires n <= Decimal.Int64Max && next == pos + |Decimal.Itoa(n)| + 3
    requires pos <= |s| && s[pos..] == [tag] + (Decimal.Itoa(n) + CRLF + rest)
    ensures pos < |s| && s[pos] == tag
    ensures IntegerAt(s, pos + 1) == (Success((n, next - pos - 1)), next)
    ensures next <= |s| && s[next..] == rest
  {
    var d := Decimal.Itoa(n);
    Drop(s, pos, [tag], d + CRLF + rest, pos + 1);
    IntegerAtKnown(s, pos + 1, n, rest);
    Drop(s, pos + 1, d + CRLF, rest, next);
  }

  lemma {:induction false} ReadMarshalBulkAt(v: Value, s: string, pos: nat, rest: string)
    requires EncodedAt(v, s, pos, rest) && v.typ == BulkType
    ensures pos <= |s| && ValueAt(s, pos) == (Success(v), pos + |Marshal(v)|)
  {
    hide *;
    var payloadAt := pos + |Decimal.Itoa(|v.bulk|)| + 3;
    BulkHeader(v, s, pos, rest);
    LineAtKnown(s, payloadAt, v.bulk, rest);
    BulkFrameAt(s, pos, v, payloadAt, payloadAt + |v.bulk| + 2, pos + |Marshal(v)|);
  }

  /** What the header of a well-formed bulk string's encoding leaves for the payload line. */
  lemma BulkHeader(v: Value, s: string, pos: nat, rest: string)
    requires EncodedAt(v, s, pos, rest) && v.typ == BulkType
    ensures var payloadAt := pos + |Decimal.Itoa(|v.bulk|)| + 3;
            && pos < |s| && s[pos] == BulkTag
            && IntegerAt(s, pos + 1).0.Success? && IntegerAt(s, pos + 1).1 == payloadAt
            && payloadAt <= |s| && s[payloadAt..] == v.bulk + CRLF + rest && NoCR(v.bulk)
            && payloadAt + |v.bulk| + 2 == pos + |Marshal(v)|
            && v == Bulk(v.bulk)
  {
    BulkLayout(v, rest);
    hide *;
    var d := Decimal.Itoa(|v.bulk|);
    HeaderAt(s, pos, BulkTag, |v.bulk|, v.bulk + CRLF + rest, pos + |d| + 3);
  }

  /** The bytes of a well-formed bulk string's encoding, followed by the rest of the input. */
  lemma BulkLayout(v: Value, rest: string)
    requires WellFormed(v) && v.typ == BulkType
    ensures var d := Decimal.Itoa(|v.bulk|);
            && Marshal(v) + rest == [BulkTag] + (d + CRLF + (v.bulk + CRLF + rest))
            && |Marshal(v)| == |d| + 3 + |v.bulk| + 2
            && |v.bulk| <= Decimal.Int64Max && NoCR(v.bulk) && v == Bulk(v.bulk)
  {
  }

  /** A bulk tag, a well-formed length line and a payload line make up one Read result. */
  lemma BulkFrameAt(s: string, pos: nat, v: Value, next: nat, last: nat, total: nat)
    requires v == Bulk(v.bulk)
    requires pos < |s| && s[pos] == BulkTag
    requires IntegerAt(s, pos + 1).0.Success? && IntegerAt(s, pos + 1).1 == next
    requires next <= |s| && LineAt(s, next) == (Success((v.bulk, |v.bulk| + 2)), last)
    requires total == last
    ensures ValueAt(s, pos) == (Success(v), total)
  {
  }

  /** Where the element list of an array's encoding starts. */
  function ElementsStart(v: Value, pos: nat): nat {
    pos + |Decimal.Itoa(|v.arr|)| + 3
  }

  lemma {:induction false} ReadMarshalArrayAt(v: Value, s: string, pos: nat, rest: string)
    requires EncodedAt(v, s, pos, rest) && v.typ != BulkType
    ensures pos <= |s| && ValueAt(s, pos) == (Success(v), pos + |Marshal(v)|)
    decreases v, 0
  {
    hide *;
    ArrayHeader(v, s, pos, rest);
    ReadMarshalAllAt(v.arr, s, ElementsStart(v, pos), rest);
    ArrayFrameAt(v, s, pos, rest);
  }

  /** What the header of a well-formed array's encoding leaves for the element loop. */
  lemma ArrayHeader(v: Value, s: string, pos: nat, rest: string)
    requires EncodedAt(v, s, pos, rest) && v.typ != BulkType
    ensures AllEncodedAt(v.arr, s, ElementsStart(v, pos), rest)
  {
    ArrayLayout(v, rest);
    hide *;
    HeaderAt(s, pos, ArrayTag, |v.arr|, MarshalAll(v.arr) + rest, ElementsStart(v, pos));
  }

  /** An array tag, a count line and the decoded element list make up one Read result. */
  lemma ArrayFrameAt(v: Value, s: string, pos: nat, rest: string)
    requires EncodedAt(v, s, pos, rest) && v.typ != BulkType
    requires ElementsStart(v, pos) <= |s|
    requires ElementsAt(s, ElementsStart(v, pos), |v.arr|) == (Success(v.arr), ElementsStart(v, pos) + |MarshalAll(v.arr)|)
    ensures ValueAt(s, pos) == (Success(v), pos + |Marshal(v)|)
  {
    hide *;
    var e := ElementsStart(v, pos);
    CountLine(v, s, pos, rest);
    ArrayFrameFrom(s, pos, v, e, e + |MarshalAll(v.arr)|, pos + |Marshal(v)|);
  }

  /** The count line of a well-formed array's encoding. */
  lemma CountLine(v: Value, s: string, pos: nat, rest: string)
    requires EncodedAt(v, s, pos, rest) && v.typ != BulkType
    ensures var e := ElementsStart(v, pos);
            && v == Array(v.arr) && pos < |s| && s[pos] == ArrayTag
            && IntegerAt(s, pos + 1) == (Success((|v.arr|, e - pos - 1)), e)
            && e + |MarshalAll(v.arr)| == pos + |Marshal(v)|
  {
    ArrayLayout(v, rest);
    hide *;
    HeaderAt(s, pos, ArrayTag, |v.arr|, MarshalAll(v.arr) + rest, ElementsStart(v, pos));
  }

  /** The bytes of a well-formed array's encoding, followed by the rest of the input. */
  lemma ArrayLayout(v: Value, rest: string)
    requires WellFormed(v) && v.typ != BulkType
    ensures var d := Decimal.Itoa(|v.arr|);
            && Marshal(v) + rest == [ArrayTag] + (d + CRLF + (MarshalAll(v.arr) + rest))
            && |Marshal(v)| == |d| + 3 + |MarshalAll(v.arr)|
            && |v.arr| <= Decimal.Int64Max && v == Array(v.arr)
            && forall k :: 0 <= k < |v.arr| ==> WellFormed(v.arr[k])
  {
    var d := Decimal.Itoa(|v.arr|);
    ArrayEncoding(v);
    hide *;
    Regroup(ArrayTag, d, MarshalAll(v.arr), rest);
  }

  lemma ArrayEncoding(v: Value)
    requires WellFormed(v) && v.typ != BulkType
    ensures Marshal(v) == [ArrayTag] + Decimal.Itoa(|v.arr|) + CRLF + MarshalAll(v.arr)
    ensures |v.arr| <= Decimal.Int64Max && v == Array(v.arr)
    ensures forall k :: 0 <= k < |v.arr| ==> WellFormed(v.arr[k])
  {
    assert v.typ == ArrayType;
  }

  /** Regrouping a header, its line end, a body and what follows. */
  lemma Regroup(tag: char, d: string, body: string, rest: string)
    ensures [tag] + d + CRLF + body + rest == [tag] + (d + CRLF + (body + rest))
    ensures |[tag] + d + CRLF + body| == |d| + 3 + |body|
  {
  }

  lemma ArrayFrameFrom(s: string, pos: nat, v: Value, next: nat, last: nat, total: nat)
    requires v == Array(v.arr)
    requires pos < |s| && s[pos] == ArrayTag
    requires IntegerAt(s, pos + 1) == (Success((|v.arr|, next - pos - 1)), next)
    requires next <= |s| && ElementsAt(s, next, |v.arr|) == (Success(v.arr), last)
    requires total == last
    ensures ValueAt(s, pos) == (Success(v), total)
  {
  }

  /** The element loop reads back the encodings of a list of frames. */
  lemma {:induction false} ReadMarshalAllAt(vs: seq<Value>, s: string, pos: nat, rest: string)
    requires AllEncodedAt(vs, s, pos, rest)
    ensures pos <= |s| && ElementsAt(s, pos, |vs|) == (Success(vs), pos + |MarshalAll(vs)|)
    decreases vs, 0
  {
    hide *;
    if vs != [] {
      ConsInput(vs, s, pos, rest);
      ReadMarshalAt(vs[0], s, pos, MarshalAll(vs[1..]) + rest);
      ReadMarshalAllAt(vs[1..], s, pos + |Marshal(vs[0])|, rest);
      ConsStep(vs, s, pos);
    } else {
      NilStep(s, pos, rest);
    }
  }

  /** No frames: the element loop reads nothing. */
  lemma NilStep(s: string, pos: nat, rest: string)
    requires AllEncodedAt([], s, pos, rest)
    ensures pos <= |s| && ElementsAt(s, pos, 0) == (Success([]), pos + |MarshalAll([])|)
  {
  }

  /** The encoding of a non-empty list is its first frame's encoding followed by the others'. */
  lemma ConsInput(vs: seq<Value>, s: string, pos: nat, rest: string)
    requires AllEncodedAt(vs, s, pos, rest) && vs != []
    ensures EncodedAt(vs[0], s, pos, MarshalAll(vs[1..]) + rest)
    ensures AllEncodedAt(vs[1..], s, pos + |Marshal(vs[0])|, rest)
  {
    var head := Marshal(vs[0]);
    var others := MarshalAll(vs[1..]) + rest;
    assert MarshalAll(vs) + rest == head + others;
    Drop(s, pos, head, others, pos + |head|);
  }

  /** One value followed by the rest of the list makes up the element loop's result. */
  lemma ConsStep(vs: seq<Value>, s: string, pos: nat)
    requires vs != [] && pos <= |s|
    requires ValueAt(s, pos) == (Success(vs[0]), pos + |Marshal(vs[0])|)
    requires pos + |Marshal(vs[0])| <= |s|
    requires ElementsAt(s, pos + |Marshal(vs[0])|, |vs[1..]|)
             == (Success(vs[1..]), pos + |Marshal(vs[0])| + |MarshalAll(vs[1..])|)
    ensures ElementsAt(s, pos, |vs|) == (Success(vs), pos + |MarshalAll(vs)|)
  {
    hide *;
    var next := pos + |Marshal(vs[0])|;
    MarshalAllCons(vs);
    ElementsAtCons(s, pos, |vs|, vs[0], next, vs[1..], next + |MarshalAll(vs[1..])|);
    assert [vs[0]] + vs[1..] == vs;
  }

  lemma MarshalAllCons(vs: seq<Value>)
    requires vs != []
    ensures MarshalAll(vs) == Marshal(vs[0]) + MarshalAll(vs[1..])
  {
  }

  lemma ElementsAtCons(s: string, pos: nat, count: int, head: Value, next: nat, tail: seq<Value>, last: nat)
    requires count > 0 && pos <= |s| && ValueAt(s, pos) == (Success(head), next)
    requires next <= |s| && ElementsAt(s, next, count - 1) == (Success(tail), last)
    ensures ElementsAt(s, pos, count) == (Success([head] + tail), last)
  {
  }

  /** Read(Marshal(v)) == v for well-formed frames, consuming the whole encoding. */
  lemma ReadMarshal(v: Value)
    requires WellFormed(v)
    ensures ValueAt(Marshal(v), 0) == (Success(v), |Marshal(v)|)
  {
    var m := Marshal(v);
    assert m[0..] == m + [];
    ReadMarshalAt(v, m, 0, []);
  }
}
