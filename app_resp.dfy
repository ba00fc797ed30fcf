/**
 * The server's own copy of the RESP codec (package main). Its Value has no
 * integer field, its reading methods are the internal package's line for
 * line, and its serialiser differs in one place: null goes out as the
 * RESP3 null "_\r\n" instead of the null bulk string "$-1\r\n".
 *
 * The reader is modelled as methods over the internal package's Reader
 * (the same cursor over the same bytes), specified by the internal
 * decoder's functions with the integer field dropped.
 */
module AppResp {
  import opened Wrappers
  import RespValue
  import RespMarshal
  import opened RespRead
  import RespRoundTrip
  import Decimal

  datatype Value = Value(typ: string, str: string, bulk: string, arr: seq<Value>)

  const Zero: Value := Value("", "", "", [])

  function Bulk(b: string): Value {
    Value(RespValue.BulkType, "", b, [])
  }

  function Array(vs: seq<Value>): Value {
    Value(RespValue.ArrayType, "", "", vs)
  }

  /** The internal Value with its integer field dropped. */
  function Project(v: RespValue.Value): (w: Value)
    ensures w.typ == v.typ && w.str == v.str && w.bulk == v.bulk && |w.arr| == |v.arr|
    decreases v, 1
  {
    Value(v.typ, v.str, v.bulk, ProjectAll(v.arr))
  }

  function ProjectAll(vs: seq<RespValue.Value>): (ws: seq<Value>)
    ensures |ws| == |vs|
    decreases vs, 0
  {
    if vs == [] then [] else [Project(vs[0])] + ProjectAll(vs[1..])
  }

  /** The internal Value with the integer field at its zero value. */
  function Embed(v: Value): (w: RespValue.Value)
    ensures w.typ == v.typ && w.str == v.str && w.bulk == v.bulk && w.num == 0 && |w.arr| == |v.arr|
    decreases v, 1
  {
    RespValue.Value(v.typ, v.str, v.bulk, EmbedAll(v.arr), 0)
  }

  function EmbedAll(vs: seq<Value>): (ws: seq<RespValue.Value>)
    ensures |ws| == |vs|
    decreases vs, 0
  {
    if vs == [] then [] else [Embed(vs[0])] + EmbedAll(vs[1..])
  }

  /** A decoder result with the integer field dropped from the value. */
  function Projected(r: (Result<RespValue.Value, ReadError>, nat)): (p: (Result<Value, ReadError>, nat))
    ensures p.1 == r.1 && p.0.Success? == r.0.Success?
  {
    match r.0
    case Success(v) => (Success(Project(v)), r.1)
    case Failure(e) => (Failure(e), r.1)
  }

  // ---------------------------------------------------------------------
  // Serialisation (Value.Marshal and helpers)
  // ---------------------------------------------------------------------

  /** Tag byte that starts an encoding: as in the internal package, except null's '_'. */
  function LeadingByte(typ: string): char
    requires RespMarshal.Encodable(typ)
  {
    if typ == RespValue.NullType then '_' else RespMarshal.LeadingByte(typ)
  }

  function Marshal(v: Value): (r: string)
    ensures RespMarshal.Encodable(v.typ) ==> |r| > 0 && r[0] == LeadingByte(v.typ)
    ensures !RespMarshal.Encodable(v.typ) ==> r == []
    decreases v, 1
  {
    if v.typ == RespValue.StringType then MarshalString(v)
    else if v.typ == RespValue.BulkType then MarshalBulk(v)
    else if v.typ == RespValue.ArrayType then MarshalArray(v)
    else if v.typ == RespValue.ErrorType then MarshalError(v)
    else if v.typ == RespValue.NullType then MarshalNull()
    else []
  }

  function MarshalString(v: Value): string {
    [RespValue.StringTag] + v.str + RespMarshal.CRLF
  }

  function MarshalBulk(v: Value): string {
    [RespValue.BulkTag] + Decimal.Itoa(|v.bulk|) + RespMarshal.CRLF + v.bulk + RespMarshal.CRLF
  }

  function MarshalArray(v: Value): string
    decreases v, 0
  {
    [RespValue.ArrayTag] + Decimal.Itoa(|v.arr|) + RespMarshal.CRLF + MarshalAll(v.arr)
  }

  function MarshalAll(vs: seq<Value>): string
    decreases vs, 2
  {
    if vs == [] then [] else Marshal(vs[0]) + MarshalAll(vs[1..])
  }

  function MarshalError(v: Value): string {
    [RespValue.ErrorTag] + v.str + RespMarshal.CRLF
  }

  function MarshalNull(): string {
    "_\r\n"
  }

  /** No null anywhere in the value. */
  predicate NullFree(v: Value)
    decreases v
  {
    v.typ != RespValue.NullType && forall i :: 0 <= i < |v.arr| ==> NullFree(v.arr[i])
  }

  /** The two serialisers disagree on null, and only there. */
  lemma NullDiffers(v: Value)
    requires v.typ == RespValue.NullType
    ensures Marshal(v) == "_\r\n"
    ensures RespMarshal.Marshal(Embed(v)) == "$-1\r\n"
  {
  }

  /** Away from null, the server's serialiser writes what the internal one writes. */
  lemma {:induction false} MarshalAgrees(v: Value)
    requires NullFree(v)
    ensures Marshal(v) == RespMarshal.Marshal(Embed(v))
    decreases v, 1
  {
    if v.typ == RespValue.ArrayType {
      MarshalAllAgrees(v.arr);
    }
  }

  lemma {:induction false} MarshalAllAgrees(vs: seq<Value>)
    requires forall i :: 0 <= i < |vs| ==> NullFree(vs[i])
    ensures MarshalAll(vs) == RespMarshal.MarshalAll(EmbedAll(vs))
    decreases vs, 0
  {
    if vs != [] {
      MarshalAgrees(vs[0]);
      MarshalAllAgrees(vs[1..]);
    }
  }

  lemma {:induction false} ProjectEmbed(v: Value)
    ensures Project(Embed(v)) == v
    decreases v, 1
  {
    ProjectEmbedAll(v.arr);
  }

  lemma {:induction false} ProjectEmbedAll(vs: seq<Value>)
    ensures ProjectAll(EmbedAll(vs)) == vs
    decreases vs, 0
  {
    if vs != [] {
      ProjectEmbed(vs[0]);
      ProjectEmbedAll(vs[1..]);
    }
  }

  lemma {:induction false} ProjectAllAppend(vs: seq<RespValue.Value>, v: RespValue.Value)
    ensures ProjectAll(vs + [v]) == ProjectAll(vs) + [Project(v)]
  {
    if vs == [] {
      assert vs + [v] == [v];
    } else {
      assert (vs + [v])[0] == vs[0] && (vs + [v])[1..] == vs[1..] + [v];
      ProjectAllAppend(vs[1..], v);
    }
  }

  // ---------------------------------------------------------------------
  // The request frames the round trip holds for
  // ---------------------------------------------------------------------

  /** A bulk string without '\r' or an array of such frames, unused fields at zero. */
  predicate WellFormed(v: Value)
    decreases v
  {
    && v.str == ""
    && (|| (v.typ == RespValue.BulkType && v.arr == [] && RespRoundTrip.NoCR(v.bulk) && |v.bulk| <= Decimal.Int64Max)
        || (&& v.typ == RespValue.ArrayType && v.bulk == "" && |v.arr| <= Decimal.Int64Max
            && forall i :: 0 <= i < |v.arr| ==> WellFormed(v.arr[i])))
  }

  lemma {:induction false} WellFormedEmbed(v: Value)
    requires WellFormed(v)
    ensures RespRoundTrip.WellFormed(Embed(v)) && NullFree(v)
    decreases v
  {
    if v.typ == RespValue.ArrayType {
      forall i | 0 <= i < |v.arr|
        ensures RespRoundTrip.WellFormed(Embed(v).arr[i]) && NullFree(v.arr[i])
      {
        WellFormedEmbed(v.arr[i]);
        EmbedAllIndex(v.arr, i);
      }
    }
  }

  lemma {:induction false} EmbedAllIndex(vs: seq<Value>, i: nat)
    requires i < |vs|
    ensures EmbedAll(vs)[i] == Embed(vs[i])
    decreases i
  {
    if i > 0 {
      EmbedAllIndex(vs[1..], i - 1);
    }
  }

  /**
   * The server's encode/decode round trip: reading back what Marshal wrote
   * for a well-formed frame gives the frame and consumes every byte.
   */
  lemma RoundTrip(v: Value)
    requires WellFormed(v)
    ensures Projected(ValueAt(Marshal(v), 0)) == (Success(v), |Marshal(v)|)
  {
    WellFormedEmbed(v);
    MarshalAgrees(v);
    RespRoundTrip.ReadMarshal(Embed(v));
    ProjectEmbed(v);
  }

  // ---------------------------------------------------------------------
  // Reading (Resp.Read, readBulk, readArray)
  // ---------------------------------------------------------------------

  method Read(rd: Reader) returns (r: Result<Value, ReadError>)
    requires rd.Valid()
    modifies rd`pos
    ensures rd.Valid()
    ensures (r, rd.pos) == Projected(ValueAt(rd.data, old(rd.pos)))
    decreases |rd.data| - rd.pos, 1
  {
    hide BulkAt, ArrayAt, Project;
    var tag := rd.ReadByte();
    if tag.Failure? {
      return Failure(tag.error);
    }
    if tag.value == RespValue.BulkTag {
      r := ReadBulk(rd);
    } else if tag.value == RespValue.ArrayTag {
      r := ReadArray(rd);
    } else {
      r := Success(Zero);
    }
  }

  method ReadBulk(rd: Reader) returns (r: Result<Value, ReadError>)
    requires rd.Valid()
    modifies rd`pos
    ensures rd.Valid()
    ensures (r, rd.pos) == Projected(BulkAt(rd.data, old(rd.pos)))
  {
    var declared := rd.ReadInteger();
    if declared.Failure? {
      return Failure(declared.error);
    }
    var line := rd.ReadLine();
    if line.Failure? {
      return Failure(line.error);
    }
    r := Success(Bulk(line.value.0));
  }

  method ReadArray(rd: Reader) returns (r: Result<Value, ReadError>)
    requires rd.Valid()
    modifies rd`pos
    ensures rd.Valid()
    ensures (r, rd.pos) == Projected(ArrayAt(rd.data, old(rd.pos)))
    decreases |rd.data| - rd.pos, 0
  {
    hide ValueAt, ElementsAt, ArrayAt, IntegerAt;
    ghost var from := rd.pos;
    var count := rd.ReadInteger();
    if count.Failure? {
      ArrayAtNoCount(rd.data, from);
      return Failure(count.error);
    }
    var len := count.value.0;
    ghost var start := rd.pos;
    ArrayAtCount(rd.data, from, len, start);
    var elems: seq<Value> := [];
    ghost var inner: seq<RespValue.Value> := [];
    var i := 0;
    while i < len
      invariant rd.Valid() && start <= rd.pos
      invariant 0 <= i && (len >= 0 ==> i <= len)
      invariant elems == ProjectAll(inner)
      invariant ElementsAt(rd.data, start, len) == Prepend(inner, ElementsAt(rd.data, rd.pos, len - i))
      decreases len - i
    {
      ghost var before := rd.pos;
      var v := Read(rd);
      ElementsAtStep(rd.data, before, len - i);
      if v.Failure? {
        PrependFailure(inner, ElementsAt(rd.data, before, len - i));
        return Failure(v.error);
      }
      ghost var w := ValueAt(rd.data, before).0.value;
      PrependAppend(inner, w, ElementsAt(rd.data, rd.pos, len - i - 1));
      ProjectAllAppend(inner, w);
      elems := elems + [v.value];
      inner := inner + [w];
      i := i + 1;
    }
    ElementsAtDone(rd.data, rd.pos, len - i);
    PrependDone(inner, rd.pos);
    r := Success(Array(elems));
  }
}
