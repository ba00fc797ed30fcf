/**
 * Behaviours of the decoder of internal/resp/resp.go (and of its copy in
 * app/resp.go) that a strict RESP2 reader would not show, stated for every
 * input of the given shape.
 */
module RespQuirks {
  import opened Wrappers
  import opened RespValue
  import opened RespRead
  import opened RespRoundTrip
  import opened RespMarshal
  import Decimal

  /**
   * readLine ends a line at its first '\r' and consumes the byte after it,
   * whatever that byte is: the '\n' of CRLF is never checked.
   */
  lemma LineIgnoresNewline(s: string, pos: nat, line: string, c: char, rest: string)
    requires pos <= |s| && s[pos..] == line + ['\r', c] + rest && NoCR(line)
    ensures LineAt(s, pos) == (Success((line, |line| + 2)), pos + |line| + 2)
  {
    var t := line + ['\r', c] + rest;
    assert |t| == |line| + 2 + |rest|;
    forall i | 0 <= i < |line|
      ensures s[pos + i] == line[i]
    {
      assert s[pos + i] == s[pos..][i] == t[i];
    }
    assert s[pos + |line|] == s[pos..][|line|] == t[|line|] == '\r';
    assert FirstCR(s, pos) == pos + |line|;
    assert s[pos..pos + |line|] == line;
  }

  /**
   * readBulk parses the declared length and then drops it: whatever the
   * number, the payload is the next line, however long that line is.
   */
  lemma BulkIgnoresLength(s: string, pos: nat, declared: string, payload: string, rest: string)
    requires pos <= |s| && s[pos..] == declared + CRLF + payload + CRLF + rest
    requires NoCR(declared) && NoCR(payload) && Decimal.ParseInt(declared).Some?
    ensures BulkAt(s, pos) == (Success(Bulk(payload)), pos + |declared| + |payload| + 4)
  {
    hide BulkAt, LineAt, IntegerAt, FirstCR;
    var tail := payload + CRLF + rest;
    assert s[pos..] == declared + CRLF + tail;
    DecimalLine(s, pos, declared, tail);
    Drop(s, pos, declared + CRLF, tail, pos + |declared| + 2);
    LineAtKnown(s, pos + |declared| + 2, payload, rest);
    BulkOfLines(s, pos, |declared| + 2, payload);
  }

  /** readBulk once its length line and its payload line are known. */
  lemma BulkOfLines(s: string, pos: nat, k: nat, payload: string)
    requires pos + k <= |s| && IntegerAt(s, pos).0.Success? && IntegerAt(s, pos).1 == pos + k
    requires LineAt(s, pos + k) == (Success((payload, |payload| + 2)), pos + k + |payload| + 2)
    ensures BulkAt(s, pos) == (Success(Bulk(payload)), pos + k + |payload| + 2)
  {
    hide LineAt, IntegerAt;
  }

  /** A decimal line followed by CRLF is read as its number. */
  lemma DecimalLine(s: string, pos: nat, line: string, rest: string)
    requires pos <= |s| && s[pos..] == line + CRLF + rest && NoCR(line) && Decimal.ParseInt(line).Some?
    ensures IntegerAt(s, pos) == (Success((Decimal.ParseInt(line).value, |line| + 2)), pos + |line| + 2)
  {
    LineAtKnown(s, pos, line, rest);
  }

  /**
   * The RESP2 null bulk string "$-1\r\n" is not read as null: its length
   * is dropped and the line after it is taken as a bulk payload.
   */
  lemma NullBulkIsNotNull(s: string, pos: nat, payload: string, rest: string)
    requires pos <= |s| && s[pos..] == "$-1\r\n" + payload + CRLF + rest && NoCR(payload)
    ensures ValueAt(s, pos) == (Success(Bulk(payload)), pos + |payload| + 7)
  {
    hide BulkAt, ArrayAt, IntegerAt, LineAt, FirstCR;
    MinusOne();
    assert s[pos] == s[pos..][0] == '$';
    assert s[pos + 1..] == s[pos..][1..] == "-1" + CRLF + payload + CRLF + rest;
    BulkIgnoresLength(s, pos + 1, "-1", payload, rest);
  }

  lemma MinusOne()
    ensures Decimal.ParseInt("-1") == Some(-1)
  {
    assert Decimal.Itoa(-1) == "-1";
    Decimal.ParseIntOfItoa(-1);
  }

  /** An array whose declared count is zero or negative is read as an empty array. */
  lemma NonPositiveCountIsEmpty(s: string, pos: nat, declared: string, rest: string)
    requires pos <= |s| && s[pos..] == declared + CRLF + rest && NoCR(declared)
    requires Decimal.ParseInt(declared).Some? && Decimal.ParseInt(declared).value <= 0
    ensures ArrayAt(s, pos) == (Success(Array([])), pos + |declared| + 2)
  {
    LineAtKnown(s, pos, declared, rest);
  }

  /** A length or count line that is not a decimal int64 is InvalidInteger, for bulks and arrays alike. */
  lemma NonDecimalLength(s: string, pos: nat, line: string, rest: string)
    requires pos <= |s| && s[pos..] == line + CRLF + rest && NoCR(line) && Decimal.ParseInt(line).None?
    ensures IntegerAt(s, pos) == (Failure(InvalidInteger), pos + |line| + 2)
    ensures BulkAt(s, pos) == (Failure(InvalidInteger), pos + |line| + 2)
    ensures ArrayAt(s, pos) == (Failure(InvalidInteger), pos + |line| + 2)
  {
    LineAtKnown(s, pos, line, rest);
  }

  /** Any leading byte other than '$' and '*' yields the zero Value, no error, after one byte. */
  lemma UnknownTagIsZero(s: string, pos: nat)
    requires pos < |s| && s[pos] != BulkTag && s[pos] != ArrayTag
    ensures ValueAt(s, pos) == (Success(Zero), pos + 1)
  {
  }

  /** Input that ends inside a line is EndOfInput. */
  lemma TruncatedLine(s: string, pos: nat)
    requires pos <= |s| && NoCR(s[pos..])
    ensures LineAt(s, pos) == (Failure(EndOfInput), |s|)
  {
    assert forall i :: pos <= i < |s| ==> s[i] == s[pos..][i - pos];
    assert FirstCR(s, pos) == |s|;
  }
}
