/**
 * The decoder of internal/resp/resp.go: a byte cursor over a finite input
 * (the bufio.Reader), consumed one byte at a time. Each reading method is
 * specified by a pure function that gives its result together with the
 * cursor position it leaves behind.
 */
module RespRead {
  import opened Wrappers
  import opened RespValue
  import RespMarshal
  import Decimal

  /** EndOfInput is io.EOF from ReadByte; InvalidInteger is strconv.ParseInt's error. */
  datatype ReadError = EndOfInput | InvalidInteger

  /** Least index at or after `from` that holds '\r', or |s| when there is none. */
  function FirstCR(s: string, from: nat): (k: nat)
    requires from <= |s|
    ensures from <= k <= |s|
    ensures k < |s| ==> s[k] == '\r'
    ensures forall i :: from <= i < k ==> s[i] != '\r'
    decreases |s| - from
  {
    if from == |s| || s[from] == '\r' then from else FirstCR(s, from + 1)
  }

  /**
   * readLine at `pos`: the bytes before the first '\r', and the number of
   * bytes consumed, which includes that '\r' and the byte after it,
   * whatever that byte is. Running out of input first is EndOfInput, with
   * the whole input consumed.
   */
  function LineAt(s: string, pos: nat): (r: (Result<(string, nat), ReadError>, nat))
    requires pos <= |s|
    ensures pos <= r.1 <= |s|
    ensures r.0.Success? ==>
              var (line, n) := r.0.value;
              && n == |line| + 2 && r.1 == pos + n
              && s[pos..pos + |line|] == line && s[pos + |line|] == '\r'
              && forall i :: 0 <= i < |line| ==> line[i] != '\r'
    ensures r.0.Failure? ==>
              && r.0.error == EndOfInput && r.1 == |s|
              && forall i :: pos <= i < |s| - 1 ==> s[i] != '\r'
  {
    var k := FirstCR(s, pos);
    if k + 1 < |s| then (Success((s[pos..k], k + 2 - pos)), k + 2)
    else (Failure(EndOfInput), |s|)
  }

  /** readInteger: a line that must hold a decimal int64. */
  function IntegerAt(s: string, pos: nat): (r: (Result<(int, nat), ReadError>, nat))
    requires pos <= |s|
    ensures pos <= r.1 <= |s|
    ensures r.0.Success? ==> r.1 >= pos + 2 && Decimal.InInt64(r.0.value.0)
  {
    var (line, next) := LineAt(s, pos);
    if line.Failure? then (Failure(line.error), next)
    else
      match Decimal.ParseInt(line.value.0)
      case None => (Failure(InvalidInteger), next)
      case Some(i) => (Success((i, line.value.1)), next)
  }

  /**
   * Read: one tag byte, then a bulk string for '$', an array for '*', and
   * for any other byte the zero Value with no error.
   */
  function ValueAt(s: string, pos: nat): (r: (Result<Value, ReadError>, nat))
    requires pos <= |s|
    ensures pos <= r.1 <= |s|
    ensures r.0.Success? ==> pos < r.1
    decreases |s| - pos, 0
  {
    if pos == |s| then (Failure(EndOfInput), pos)
    else if s[pos] == BulkTag then BulkAt(s, pos + 1)
    else if s[pos] == ArrayTag then ArrayAt(s, pos + 1)
    else (Success(Zero), pos + 1)
  }

  /** readBulk: the declared length is parsed and then ignored; the payload is the next line. */
  function BulkAt(s: string, pos: nat): (r: (Result<Value, ReadError>, nat))
    requires pos <= |s|
    ensures pos <= r.1 <= |s|
    ensures r.0.Success? ==> r.0.value.typ == BulkType
  {
    var (declared, next) := IntegerAt(s, pos);
    if declared.Failure? then (Failure(declared.error), next)
    else
      var (line, last) := LineAt(s, next);
      if line.Failure? then (Failure(line.error), last)
      else (Success(Bulk(line.value.0)), last)
  }

  /** readArray: a count, then that many values (none when the count is not positive). */
  function ArrayAt(s: string, pos: nat): (r: (Result<Value, ReadError>, nat))
    requires pos <= |s|
    ensures pos <= r.1 <= |s|
    ensures r.0.Success? ==> r.0.value.typ == ArrayType
    decreases |s| - pos, 2
  {
    var (count, next) := IntegerAt(s, pos);
    if count.Failure? then (Failure(count.error), next)
    else
      var (elems, last) := ElementsAt(s, next, count.value.0);
      if elems.Failure? then (Failure(elems.error), last)
      else (Success(Array(elems.value)), last)
  }

  /** The element loop of readArray: `count` values read one after the other. */
  function ElementsAt(s: string, pos: nat, count: int): (r: (Result<seq<Value>, ReadError>, nat))
    requires pos <= |s|
    ensures pos <= r.1 <= |s|
    ensures r.0.Success? ==> |r.0.value| == if count <= 0 then 0 else count
    decreases |s| - pos, 1
  {
    if count <= 0 then (Success([]), pos)
    else
      var (head, next) := ValueAt(s, pos);
      if head.Failure? then (Failure(head.error), next)
      else
        var (tail, last) := ElementsAt(s, next, count - 1);
        if tail.Failure? then (Failure(tail.error), last)
        else (Success([head.value] + tail.value), last)
  }

  /** Puts `prefix` in front of a successful element list, keeping the position. */
  function Prepend(prefix: seq<Value>, r: (Result<seq<Value>, ReadError>, nat)): (p: (Result<seq<Value>, ReadError>, nat))
    ensures prefix == [] ==> p == r
  {
    match r.0
    case Success(tail) => assert prefix == [] ==> prefix + tail == tail; (Success(prefix + tail), r.1)
    case Failure(_) => r
  }

  /** The Resp reader: a finite input and a cursor into it. */
  class Reader {
    const data: string
    var pos: nat

    ghost predicate Valid()
      reads this
    {
      pos <= |data|
    }

    constructor (data: string)
      ensures Valid() && this.data == data && pos == 0
    {
      this.data := data;
      pos := 0;
    }

    /** bufio.Reader.ReadByte on a finite input. */
    method ReadByte() returns (r: Result<char, ReadError>)
      requires Valid()
      modifies this`pos
      ensures Valid()
      ensures old(pos) < |data| ==> r == Success(data[old(pos)]) && pos == old(pos) + 1
      ensures old(pos) == |data| ==> r == Failure(EndOfInput) && pos == old(pos)
    {
      if pos == |data| {
        return Failure(EndOfInput);
      }
      r := Success(data[pos]);
      pos := pos + 1;
    }

    method ReadLine() returns (r: Result<(string, nat), ReadError>)
      requires Valid()
      modifies this`pos
      ensures Valid()
      ensures (r, pos) == LineAt(data, old(pos))
    {
      var line: string := [];
      var n: nat := 0;
      while true
        invariant Valid() && pos == old(pos) + n && n == |line|
        invariant line == data[old(pos)..pos]
        invariant forall i :: 0 <= i < |line| - 1 ==> line[i] != '\r'
        decreases |data| - pos
      {
        var b := ReadByte();
        if b.Failure? {
          assert FirstCR(data, old(pos)) + 1 >= |data|;
          return Failure(b.error);
        }
        n := n + 1;
        line := line + [b.value];
        if |line| >= 2 && line[|line| - 2] == '\r' {
          break;
        }
      }
      assert FirstCR(data, old(pos)) == pos - 2;
      assert line[..|line| - 2] == data[old(pos)..pos - 2];
      r := Success((line[..|line| - 2], n));
    }

    method ReadInteger() returns (r: Result<(int, nat), ReadError>)
      requires Valid()
      modifies this`pos
      ensures Valid()
      ensures (r, pos) == IntegerAt(data, old(pos))
    {
      var line := ReadLine();
      if line.Failure? {
        return Failure(line.error);
      }
      var i := Decimal.ParseInt(line.value.0);
      if i.None? {
        return Failure(InvalidInteger);
      }
      r := Success((i.value, line.value.1));
    }

    method Read() returns (r: Result<Value, ReadError>)
      requires Valid()
      modifies this`pos
      ensures Valid()
      ensures (r, pos) == ValueAt(data, old(pos))
      decreases |data| - pos, 1
    {
      var tag := ReadByte();
      if tag.Failure? {
        return Failure(tag.error);
      }
      if tag.value == BulkTag {
        r := ReadBulk();
      } else if tag.value == ArrayTag {
        r := ReadArray();
      } else {
        r := Success(Zero);
      }
    }

    method ReadBulk() returns (r: Result<Value, ReadError>)
      requires Valid()
      modifies this`pos
      ensures Valid()
      ensures (r, pos) == BulkAt(data, old(pos))
    {
      var declared := ReadInteger();
      if declared.Failure? {
        return Failure(declared.error);
      }
      var line := ReadLine();
      if line.Failure? {
        return Failure(line.error);
      }
      r := Success(Bulk(line.value.0));
    }

    method ReadArray() returns (r: Result<Value, ReadError>)
      requires Valid()
      modifies this`pos
      ensures Valid()
      ensures (r, pos) == ArrayAt(data, old(pos))
      decreases |data| - pos, 0
    {
      hide ValueAt, ElementsAt, ArrayAt, IntegerAt;
      ghost var from := pos;
      var count := ReadInteger();
      if count.Failure? {
        ArrayAtNoCount(data, from);
        return Failure(count.error);
      }
      var len := count.value.0;
      ghost var start := pos;
      ArrayAtCount(data, from, len, start);
      var elems: seq<Value> := [];
      var i := 0;
      while i < len
        invariant Valid() && start <= pos
        invariant 0 <= i && (len >= 0 ==> i <= len)
        invariant ElementsAt(data, start, len) == Prepend(elems, ElementsAt(data, pos, len - i))
        decreases len - i
      {
        ghost var before := pos;
        var v := Read();
        ElementsAtStep(data, before, len - i);
        if v.Failure? {
          PrependFailure(elems, ElementsAt(data, before, len - i));
          return Failure(v.error);
        }
        PrependAppend(elems, v.value, ElementsAt(data, pos, len - i - 1));
        elems := elems + [v.value];
        i := i + 1;
      }
      ElementsAtDone(data, pos, len - i);
      PrependDone(elems, pos);
      r := Success(Array(elems));
    }
  }

  /** readArray fails, where it stands, when the count line does not hold an integer. */
  lemma ArrayAtNoCount(s: string, pos: nat)
    requires pos <= |s| && IntegerAt(s, pos).0.Failure?
    ensures ArrayAt(s, pos) == (Failure(IntegerAt(s, pos).0.error), IntegerAt(s, pos).1)
  {
  }

  /** After a count line, readArray's result is the element loop's. */
  lemma ArrayAtCount(s: string, pos: nat, count: int, next: nat)
    requires pos <= |s| && IntegerAt(s, pos).0.Success? && IntegerAt(s, pos).0.value.0 == count
    requires IntegerAt(s, pos).1 == next
    ensures next <= |s|
    ensures var (elems, last) := ElementsAt(s, next, count);
            ArrayAt(s, pos) == (if elems.Failure? then (Failure(elems.error), last) else (Success(Array(elems.value)), last))
  {
  }

  /** One value read from the input, then the remaining count. */
  lemma ElementsAtStep(s: string, pos: nat, count: int)
    requires pos <= |s| && count > 0
    ensures var (head, next) := ValueAt(s, pos);
            && (head.Failure? ==> ElementsAt(s, pos, count) == (Failure(head.error), next))
            && (head.Success? ==> ElementsAt(s, pos, count) == Prepend([head.value], ElementsAt(s, next, count - 1)))
  {
  }

  lemma PrependFailure(prefix: seq<Value>, r: (Result<seq<Value>, ReadError>, nat))
    requires r.0.Failure?
    ensures Prepend(prefix, r) == r
  {
  }

  lemma PrependAppend(prefix: seq<Value>, v: Value, r: (Result<seq<Value>, ReadError>, nat))
    ensures Prepend(prefix, Prepend([v], r)) == Prepend(prefix + [v], r)
  {
    if r.0.Success? {
      assert prefix + ([v] + r.0.value) == (prefix + [v]) + r.0.value;
    }
  }

  /** Nothing left to read: the element loop stops where it stands. */
  lemma ElementsAtDone(s: string, pos: nat, count: int)
    requires pos <= |s| && count <= 0
    ensures ElementsAt(s, pos, count) == (Success([]), pos)
  {
  }

  lemma PrependDone(prefix: seq<Value>, pos: nat)
    ensures Prepend(prefix, (Success([]), pos)) == (Success(prefix), pos)
  {
    assert prefix + [] == prefix;
  }
}
