/**
 * Loading the key/value table of a Redis RDB snapshot (rdb.go). The file's
 * bytes and the current time are parameters; the file read and the clock
 * are not part of this model.
 *
 * The table is the stretch of the file strictly between the first RESIZEDB
 * opcode (0xFB) and the first EOF opcode (0xFF). Its first byte is the
 * record count; records start at offset 2. Each record is an optional
 * expiry (0xFC with an 8-byte little-endian millisecond time, 0xFD with a
 * 4-byte little-endian second time), a value-type byte, then key and value,
 * each a one-byte length and that many bytes. Every record is replayed as
 * a SET through the handler.
 *
 * The file is a Go slice with its capacity: os.ReadFile returns a slice
 * whose backing array may extend past its length. The table is re-sliced
 * from it, so key, value and time-stamp slices, which Go bounds by
 * capacity, may read past the table's EOF byte into the rest of the file.
 *
 * The cursor is a Go byte, so all cursor arithmetic wraps modulo 256. An
 * index beyond the length or a slice beyond the capacity is a Go panic;
 * the model reports it as a failure, after the records already replayed.
 */
module Rdb {
  import opened Wrappers
  import RespValue
  import Handler
  import Decimal

  newtype uint8 = x: int | 0 <= x < 256

  const AUX: uint8 := 0xFA
  const RESIZEDB: uint8 := 0xFB
  const EXPIRETIMEMS: uint8 := 0xFC
  const EXPIRETIME: uint8 := 0xFD
  const SELECTDB: uint8 := 0xFE
  const EOF: uint8 := 0xFF

  /** Byte addition: the sum modulo 256. */
  function Add(a: uint8, b: int): (r: uint8)
    ensures r as int == (a as int + b) % 256
  {
    ((a as int + b) % 256) as uint8
  }

  // ---------------------------------------------------------------------
  // sliceIndex and parseTable
  // ---------------------------------------------------------------------

  /** The least index holding `sep`, or -1 when there is none. */
  function IndexOf(data: seq<uint8>, sep: uint8): (i: int)
    ensures -1 <= i < |data|
    ensures i == -1 <==> sep !in data
    ensures i >= 0 ==> data[i] == sep && sep !in data[..i]
  {
    if data == [] then -1
    else if data[0] == sep then 0
    else
      var k := IndexOf(data[1..], sep);
      if k == -1 then -1
      else
        assert data[..k + 1] == [data[0]] + data[1..][..k];
        k + 1
  }

  method SliceIndex(data: seq<uint8>, sep: uint8) returns (r: int)
    ensures r == IndexOf(data, sep)
  {
    var i := 0;
    while i < |data|
      invariant 0 <= i <= |data|
      invariant sep !in data[..i]
    {
      if data[i] == sep {
        IndexOfFirst(data, sep, i);
        return i;
      }
      assert data[..i + 1] == data[..i] + [data[i]];
      i := i + 1;
    }
    assert data[..i] == data;
    r := -1;
  }

  /** Any index holding `sep` with no `sep` before it is IndexOf's. */
  lemma IndexOfFirst(data: seq<uint8>, sep: uint8, i: nat)
    requires i < |data| && data[i] == sep && sep !in data[..i]
    ensures IndexOf(data, sep) == i
  {
  }

  // ---------------------------------------------------------------------
  // Go byte slices
  // ---------------------------------------------------------------------

  /**
   * A Go []byte: the bytes from its first element to the end of its
   * capacity (the window), and its length. Indexing s[j] is bounded by the
   * length, a slice expression s[lo:hi] by the capacity, so a re-slice may
   * reach past the length into the rest of the backing array.
   */
  datatype SliceRep = SliceRep(window: seq<uint8>, len: nat)
  type ByteSlice = s: SliceRep | s.len <= |s.window| witness SliceRep([], 0)

  /** The elements of a slice: its first len bytes. */
  function Elements(s: ByteSlice): seq<uint8> {
    s.window[..s.len]
  }

  /**
   * parseTable: bytes[start+1 : end] for the first RESIZEDB and the first
   * EOF. Without a RESIZEDB, start is -1 and the table starts at byte 0. A
   * slice with start+1 > end, which includes a missing EOF, panics (None).
   * The table keeps the file's capacity: its window starts right after the
   * first RESIZEDB and runs on through the EOF byte to the end of the file's
   * window; only its length stops at the EOF.
   */
  function ParseTable(bytes: ByteSlice): (r: Option<ByteSlice>)
    ensures r.Some? <==> EOF in Elements(bytes) && IndexOf(Elements(bytes), RESIZEDB) < IndexOf(Elements(bytes), EOF)
    ensures r.Some? ==> var start := IndexOf(Elements(bytes), RESIZEDB);
                        r.value.window == bytes.window[start + 1..]
                        && r.value.len == IndexOf(Elements(bytes), EOF) - (start + 1)
  {
    var start := IndexOf(Elements(bytes), RESIZEDB);
    var end := IndexOf(Elements(bytes), EOF);
    if start + 1 <= end then Some(SliceRep(bytes.window[start + 1..], end - (start + 1))) else None
  }

  /**
   * The table is exactly what lies strictly between the first RESIZEDB and
   * the first EOF (or before the first EOF when there is no RESIZEDB): the
   * file is a head ending in its first RESIZEDB, the table, the EOF, and a
   * tail, and neither opcode occurs before where it is cut.
   */
  lemma ParseTableBetween(file: ByteSlice)
    requires ParseTable(file).Some?
    ensures var bytes, t := Elements(file), Elements(ParseTable(file).value);
            exists head, tail ::
              && bytes == head + t + [EOF] + tail
              && EOF !in head + t
              && (head == [] ==> RESIZEDB !in bytes[..|t|])
              && (head != [] ==> head[|head| - 1] == RESIZEDB && RESIZEDB !in head[..|head| - 1])
  {
    hide IndexOf;
    var bytes := Elements(file);
    TableElements(file, IndexOf(bytes, RESIZEDB), IndexOf(bytes, EOF));
    SplitAroundTable(bytes, IndexOf(bytes, RESIZEDB), IndexOf(bytes, EOF));
  }

  /** The table's elements are the file's elements between the two opcodes. */
  lemma TableElements(file: ByteSlice, start: int, end: int)
    requires start == IndexOf(Elements(file), RESIZEDB) && end == IndexOf(Elements(file), EOF)
    requires ParseTable(file).Some?
    ensures -1 <= start < end < file.len
    ensures Elements(ParseTable(file).value) == Elements(file)[start + 1..end]
  {
    TableFacts(file);
    hide *;
    WindowSlice(file.window, file.len, start + 1, end);
  }

  /** The table's window holds the EOF right after its last element. */
  lemma TableEndsAtEOF(file: ByteSlice)
    requires ParseTable(file).Some?
    ensures var t := ParseTable(file).value; t.len < |t.window| && t.window[t.len] == EOF
  {
    TableFacts(file);
    var bytes := Elements(file);
    var end := IndexOf(bytes, EOF);
    hide *;
    assert bytes[end] == EOF && bytes[end] == file.window[end];
  }

  /** ParseTable's cut, with both element sequences spelled out. */
  lemma TableFacts(file: ByteSlice)
    requires ParseTable(file).Some?
    ensures var start, end, t := IndexOf(Elements(file), RESIZEDB), IndexOf(Elements(file), EOF), ParseTable(file).value;
            && -1 <= start < end < file.len
            && t.window == file.window[start + 1..] && t.len == end - (start + 1)
            && Elements(file) == file.window[..file.len] && Elements(t) == t.window[..t.len]
  {
  }

  /** Cutting a window first at lo and then to length hi - lo is cutting its elements at lo..hi. */
  lemma WindowSlice(w: seq<uint8>, len: nat, lo: nat, hi: nat)
    requires lo <= hi <= len <= |w|
    ensures w[lo..][..hi - lo] == w[..len][lo..hi]
  {
    var a, b := w[lo..][..hi - lo], w[..len][lo..hi];
    forall i | 0 <= i < |a|
      ensures a[i] == b[i]
    {
    }
  }

  lemma SplitAroundTable(bytes: seq<uint8>, start: int, end: int)
    requires start == IndexOf(bytes, RESIZEDB) && end == IndexOf(bytes, EOF) && start < end
    ensures var t := bytes[start + 1..end];
            exists head, tail ::
              && bytes == head + t + [EOF] + tail
              && EOF !in head + t
              && (head == [] ==> RESIZEDB !in bytes[..|t|])
              && (head != [] ==> head[|head| - 1] == RESIZEDB && RESIZEDB !in head[..|head| - 1])
  {
    hide IndexOf;
    var t := bytes[start + 1..end];
    var head := bytes[..start + 1];
    var tail := bytes[end + 1..];
    assert bytes == head + t + [EOF] + tail;
    assert head + t == bytes[..end];
    if head != [] {
      assert head[..|head| - 1] == bytes[..start];
    } else {
      assert bytes[..|t|] == bytes[..end];
      assert RESIZEDB !in bytes[..end];
    }
  }

  // ---------------------------------------------------------------------
  // Records
  // ---------------------------------------------------------------------

  /** One table record: its expiry option byte, the expiry time bytes, key and value. */
  datatype Record = Record(option: uint8, stamp: seq<uint8>, key: seq<uint8>, value: seq<uint8>)

  /** content[lo:hi]: the bytes when lo <= hi <= cap(content), else a panic. */
  function Slice(content: ByteSlice, lo: uint8, hi: uint8): (r: Option<seq<uint8>>)
    ensures r.Some? <==> lo <= hi && hi as int <= |content.window|
    ensures r.Some? ==> r.value == content.window[lo..hi]
  {
    if lo <= hi && hi as int <= |content.window| then Some(content.window[lo..hi]) else None
  }

  /** Bytes of the expiry time that follow the option byte, and how far they move the cursor. */
  function StampWidth(option: uint8): (w: nat)
    ensures w == 8 || w == 4 || w == 0
  {
    if option == EXPIRETIMEMS then 8 else if option == EXPIRETIME then 4 else 0
  }

  /**
   * A one-byte length at cursor j and that many bytes after it, with the
   * cursor moved past them.
   */
  function FieldAt(content: ByteSlice, j: uint8): (r: Option<(seq<uint8>, uint8)>)
    ensures j as int >= content.len ==> r.None?
    ensures j as int < content.len ==>
              var lo := Add(j, 1);
              var hi := Add(lo, content.window[j] as int);
              && (r.Some? <==> lo <= hi && hi as int <= |content.window|)
              && (r.Some? ==> r.value.0 == content.window[lo..hi])
    ensures r.Some? ==> j as int < content.len && |r.value.0| == content.window[j] as int
    ensures r.Some? ==> r.value.1 == Add(j, |r.value.0| + 1)
  {
    if j as int >= content.len then None
    else
      var len := content.window[j];
      match Slice(content, Add(j, 1), Add(Add(j, 1), len as int))
      case None => None
      case Some(bytes) => Some((bytes, Add(j, len as int + 1)))
  }

  /**
   * The expiry part at cursor j: the option byte, the time bytes it
   * announces, and the cursor on the value-type byte that follows.
   */
  function ExpiryAt(content: ByteSlice, j: uint8): (r: Option<(uint8, seq<uint8>, uint8)>)
    ensures j as int >= content.len ==> r.None?
    ensures j as int < content.len ==>
              var width := StampWidth(content.window[j]);
              var lo, hi := Add(j, 1), Add(j, width + 1);
              && (r.Some? <==> width == 0 || (lo <= hi && hi as int <= |content.window|))
              && (r.Some? && width != 0 ==> r.value.1 == content.window[lo..hi])
    ensures r.Some? ==> j as int < content.len && r.value.0 == content.window[j]
    ensures r.Some? ==> |r.value.1| == StampWidth(r.value.0)
    ensures r.Some? ==> r.value.2 == if StampWidth(r.value.0) == 0 then j else Add(j, StampWidth(r.value.0) + 1)
  {
    if j as int >= content.len then None
    else
      var option := content.window[j];
      var width := StampWidth(option);
      if width == 0 then Some((option, [], j))
      else
        match Slice(content, Add(j, 1), Add(j, width + 1))
        case None => None
        case Some(stamp) => Some((option, stamp, Add(j, width + 1)))
  }

  /**
   * One iteration of the table loop at cursor j: the record and the cursor
   * after it, or None where the Go code would panic. The value-type byte
   * after the expiry is skipped unread.
   */
  function RecordAt(content: ByteSlice, j: uint8): (r: Option<(Record, uint8)>)
    ensures r.Some? ==> |r.value.0.stamp| == StampWidth(r.value.0.option)
  {
    match ExpiryAt(content, j)
    case None => None
    case Some((option, stamp, j1)) =>
      match FieldAt(content, Add(j1, 1))
      case None => None
      case Some((key, j2)) =>
        match FieldAt(content, j2)
        case None => None
        case Some((value, j3)) => Some((Record(option, stamp, key, value), j3))
  }

  /**
   * A record is the expiry part at the cursor, the key after the skipped
   * value-type byte and the value after the key; reading it fails exactly
   * when one of the three reads fails.
   */
  lemma RecordAtReads(content: ByteSlice, j: uint8)
    ensures var e := ExpiryAt(content, j);
            var k := if e.Some? then FieldAt(content, Add(e.value.2, 1)) else None;
            var v := if k.Some? then FieldAt(content, k.value.1) else None;
            && (RecordAt(content, j).Some? <==> v.Some?)
            && (RecordAt(content, j).Some? ==>
                  RecordAt(content, j).value == (Record(e.value.0, e.value.1, k.value.0, v.value.0), v.value.1))
  {
  }

  /**
   * `count` records read one after another from cursor j: the records read,
   * and false when a panic cut the walk short.
   */
  function Walk(content: ByteSlice, j: uint8, count: nat): (r: (seq<Record>, bool))
    ensures r.1 ==> |r.0| == count
    ensures |r.0| <= count
    decreases count
  {
    if count == 0 then ([], true)
    else
      match RecordAt(content, j)
      case None => ([], false)
      case Some((rec, next)) =>
        var (rest, ok) := Walk(content, next, count - 1);
        ([rec] + rest, ok)
  }

  /**
   * readFile without the file read: an empty file loads nothing and
   * succeeds; otherwise the table's first byte is the record count and the
   * walk starts at offset 2. An empty table panics on content[0].
   */
  function Load(c: ByteSlice): (r: (seq<Record>, bool))
    ensures c.len == 0 ==> r == ([], true)
  {
    if c.len == 0 then ([], true)
    else
      match ParseTable(c)
      case None => ([], false)
      case Some(content) =>
        if content.len == 0 then ([], false) else Walk(content, 2, content.window[0] as nat)
  }

  // ---------------------------------------------------------------------
  // The layout the table loop reads
  // ---------------------------------------------------------------------

  /** A key or value as the table stores it: a one-byte length, then the bytes. */
  function FieldBytes(f: seq<uint8>): seq<uint8>
    requires |f| < 256
  {
    [|f| as uint8] + f
  }

  /** A record the layout can hold: a stamp as wide as its option says, and fields of at most 255 bytes. */
  predicate Encodable(rec: Record) {
    |rec.stamp| == StampWidth(rec.option) && |rec.key| < 256 && |rec.value| < 256
  }

  /**
   * The expiry part as the table stores it: with an expiry, the option, the
   * stamp and the value-type byte; without one, the option byte alone, for
   * it is itself the value-type byte.
   */
  function ExpiryBytes(option: uint8, stamp: seq<uint8>, valueType: uint8): seq<uint8> {
    if StampWidth(option) == 0 then [option] else [option] + stamp + [valueType]
  }

  /** A record as the table stores it: the expiry part, the key and the value. */
  function RecordBytes(rec: Record, valueType: uint8): seq<uint8>
    requires Encodable(rec)
  {
    ExpiryBytes(rec.option, rec.stamp, valueType) + FieldBytes(rec.key) + FieldBytes(rec.value)
  }

  /** Records stored one after another. */
  function RecordsBytes(recs: seq<Record>, valueType: uint8): seq<uint8>
    requires forall i :: 0 <= i < |recs| ==> Encodable(recs[i])
  {
    if recs == [] then [] else RecordBytes(recs[0], valueType) + RecordsBytes(recs[1..], valueType)
  }

  /** The content's window holds the given bytes from position at on, within its capacity. */
  predicate Holds(content: ByteSlice, at: int, bytes: seq<uint8>) {
    0 <= at && at + |bytes| <= |content.window| && content.window[at..at + |bytes|] == bytes
  }

  /** A window holding x + y holds x, and y right after it. */
  lemma HoldsSplit(content: ByteSlice, at: int, x: seq<uint8>, y: seq<uint8>)
    requires Holds(content, at, x + y)
    ensures Holds(content, at, x) && Holds(content, at + |x|, y)
  {
    var w := content.window;
    forall i | 0 <= i < |x|
      ensures w[at..at + |x|][i] == x[i]
    {
      assert w[at + i] == (x + y)[i];
    }
    forall i | 0 <= i < |y|
      ensures w[at + |x|..at + |x| + |y|][i] == y[i]
    {
      assert w[at + |x| + i] == (x + y)[|x| + i];
    }
  }

  lemma HoldsFirst(content: ByteSlice, at: int, bytes: seq<uint8>)
    requires Holds(content, at, bytes) && bytes != []
    ensures content.window[at] == bytes[0]
  {
    assert content.window[at] == content.window[at..at + |bytes|][0];
  }

  /**
   * A stored field is read back: its length byte lies within the content's
   * length, its bytes may lie anywhere within the capacity, and the cursor
   * lands just after it.
   */
  lemma FieldAtStored(content: ByteSlice, j: uint8, f: seq<uint8>)
    requires |f| < 256 && j as int < content.len && j as int + 1 + |f| < 256
    requires Holds(content, j as int, FieldBytes(f))
    ensures FieldAt(content, j) == Some((f, (j as int + 1 + |f|) as uint8))
  {
    HoldsSplit(content, j as int, [|f| as uint8], f);
    HoldsFirst(content, j as int, [|f| as uint8]);
    var lo, hi := Add(j, 1), Add(Add(j, 1), |f|);
    assert lo as int == j as int + 1 && hi as int == j as int + 1 + |f|;
    hide *;
    assert content.window[lo..hi] == f;
  }

  /**
   * A stored expiry part is read back: its option byte lies within the
   * content's length, and the cursor lands on its last byte, the value-type
   * byte.
   */
  lemma ExpiryAtStored(content: ByteSlice, j: uint8, option: uint8, stamp: seq<uint8>, valueType: uint8)
    requires |stamp| == StampWidth(option) && j as int < content.len
    requires j as int + |ExpiryBytes(option, stamp, valueType)| < 256
    requires Holds(content, j as int, ExpiryBytes(option, stamp, valueType))
    ensures ExpiryAt(content, j) == Some((option, stamp, (j as int + |ExpiryBytes(option, stamp, valueType)| - 1) as uint8))
  {
    if StampWidth(option) == 0 {
      HoldsFirst(content, j as int, [option]);
    } else {
      HoldsSplit(content, j as int, [option] + stamp, [valueType]);
      HoldsSplit(content, j as int, [option], stamp);
      HoldsFirst(content, j as int, [option]);
    }
  }

  /** RecordAt strings together the expiry part, the key and the value. */
  lemma RecordAtFrom(content: ByteSlice, j: uint8, rec: Record, j0: uint8, j2: uint8, j3: uint8)
    requires ExpiryAt(content, j) == Some((rec.option, rec.stamp, j0))
    requires FieldAt(content, Add(j0, 1)) == Some((rec.key, j2))
    requires FieldAt(content, j2) == Some((rec.value, j3))
    ensures RecordAt(content, j) == Some((rec, j3))
  {
  }

  /**
   * A stored record is read back whole, with the cursor just after it. Only
   * the bytes up to the value's length byte need lie within the content's
   * length; the value may run on into its capacity.
   */
  lemma RecordAtStored(content: ByteSlice, j: uint8, rec: Record, valueType: uint8)
    requires Encodable(rec)
    requires j as int + |RecordBytes(rec, valueType)| < 256
    requires j as int + |RecordBytes(rec, valueType)| - |rec.value| <= content.len
    requires Holds(content, j as int, RecordBytes(rec, valueType))
    ensures RecordAt(content, j) == Some((rec, (j as int + |RecordBytes(rec, valueType)|) as uint8))
  {
    RecordParts(content, j as int, rec, valueType);
    var h := |ExpiryBytes(rec.option, rec.stamp, valueType)|;
    var k, v := |rec.key| + 1, |rec.value| + 1;
    hide *;
    var j0, j1 := (j as int + h - 1) as uint8, (j as int + h) as uint8;
    var j2, j3 := (j as int + h + k) as uint8, (j as int + h + k + v) as uint8;
    ExpiryAtStored(content, j, rec.option, rec.stamp, valueType);
    FieldAtStored(content, j1, rec.key);
    FieldAtStored(content, j2, rec.value);
    assert Add(j0, 1) == j1;
    RecordAtFrom(content, j, rec, j0, j2, j3);
  }

  /** Where a stored record's expiry part, key and value lie. */
  lemma RecordParts(content: ByteSlice, at: int, rec: Record, valueType: uint8)
    requires Encodable(rec) && Holds(content, at, RecordBytes(rec, valueType))
    ensures var head := ExpiryBytes(rec.option, rec.stamp, valueType);
            && |RecordBytes(rec, valueType)| == |head| + |rec.key| + |rec.value| + 2 && |head| >= 1
            && |rec.stamp| == StampWidth(rec.option) && |rec.key| < 256 && |rec.value| < 256
            && Holds(content, at, head)
            && Holds(content, at + |head|, FieldBytes(rec.key))
            && Holds(content, at + |head| + |rec.key| + 1, FieldBytes(rec.value))
  {
    var head := ExpiryBytes(rec.option, rec.stamp, valueType);
    var key, value := FieldBytes(rec.key), FieldBytes(rec.value);
    assert RecordBytes(rec, valueType) == head + key + value;
    HoldsSplit(content, at, head + key, value);
    HoldsSplit(content, at, head, key);
  }

  /** The records are stored one after another from cursor j, wholly within the content's length. */
  predicate StoredAt(content: ByteSlice, j: uint8, recs: seq<Record>, valueType: uint8) {
    && (forall i :: 0 <= i < |recs| ==> Encodable(recs[i]))
    && j as int + |RecordsBytes(recs, valueType)| < 256
    && j as int + |RecordsBytes(recs, valueType)| <= content.len
    && Holds(content, j as int, RecordsBytes(recs, valueType))
  }

  lemma EncodableRest(recs: seq<Record>)
    requires recs != [] && forall i :: 0 <= i < |recs| ==> Encodable(recs[i])
    ensures Encodable(recs[0]) && forall i :: 0 <= i < |recs[1..]| ==> Encodable(recs[1..][i])
  {
    forall i | 0 <= i < |recs[1..]|
      ensures Encodable(recs[1..][i])
    {
      assert recs[1..][i] == recs[i + 1];
    }
  }

  /** The first stored record is read back, and the rest are stored from the cursor after it. */
  lemma StoredFirst(content: ByteSlice, j: uint8, recs: seq<Record>, valueType: uint8) returns (next: uint8)
    requires recs != [] && StoredAt(content, j, recs, valueType)
    ensures RecordAt(content, j) == Some((recs[0], next))
    ensures StoredAt(content, next, recs[1..], valueType)
  {
    EncodableRest(recs);
    var first, rest := RecordBytes(recs[0], valueType), RecordsBytes(recs[1..], valueType);
    assert RecordsBytes(recs, valueType) == first + rest;
    HoldsSplit(content, j as int, first, rest);
    RecordAtStored(content, j, recs[0], valueType);
    next := (j as int + |first|) as uint8;
  }

  /**
   * Records stored one after another from cursor j are walked back, all of
   * them and in order, without a panic.
   */
  lemma {:induction false} WalkStored(content: ByteSlice, j: uint8, recs: seq<Record>, valueType: uint8)
    requires StoredAt(content, j, recs, valueType)
    ensures Walk(content, j, |recs|) == (recs, true)
    decreases recs
  {
    if recs == [] {
      WalkDone(content, j);
    } else {
      var next := StoredFirst(content, j, recs, valueType);
      hide *;
      WalkStored(content, next, recs[1..], valueType);
      WalkCons(content, j, |recs|, recs[0], next);
      FirstAndRest(recs);
    }
  }

  // ---------------------------------------------------------------------
  // Replaying records through SET
  // ---------------------------------------------------------------------

  /** string(b): one character per byte. */
  function Text(bs: seq<uint8>): (s: string)
    ensures |s| == |bs| && forall i :: 0 <= i < |bs| ==> s[i] as int == bs[i] as int
  {
    seq(|bs|, i requires 0 <= i < |bs| => bs[i] as int as char)
  }

  /** binary.LittleEndian: the first byte is the least significant. */
  function LittleEndian(bs: seq<uint8>): (n: nat)
    ensures n < Pow256(|bs|)
  {
    if bs == [] then 0 else bs[0] as nat + 256 * LittleEndian(bs[1..])
  }

  function Pow256(k: nat): (p: nat)
    ensures p >= 1
  {
    if k == 0 then 1 else 256 * Pow256(k - 1)
  }

  /** Go's conversion of a uint64 to int64: two's complement. */
  function ToInt64(u: nat): (i: int)
    requires u < 0x1_0000_0000_0000_0000
    ensures Decimal.InInt64(i) && (i - u) % 0x1_0000_0000_0000_0000 == 0
  {
    if u <= Decimal.Int64Max then u else u - 0x1_0000_0000_0000_0000
  }

  /** Go's int64 multiplication, wrapping around. */
  function Wrap64(n: int): (i: int)
    ensures Decimal.InInt64(i) && (i - n) % 0x1_0000_0000_0000_0000 == 0
  {
    var m := (n - Decimal.Int64Min) % 0x1_0000_0000_0000_0000;
    m + Decimal.Int64Min
  }

  /** A time.Duration difference clamps to the int64 range instead of wrapping. */
  function Saturate64(n: int): (i: int)
    ensures Decimal.InInt64(i)
    ensures Decimal.InInt64(n) ==> i == n
  {
    if n < Decimal.Int64Min then Decimal.Int64Min else if n > Decimal.Int64Max then Decimal.Int64Max else n
  }

  /** Go's integer division, truncating toward zero. */
  function Quot(a: int, b: nat): (q: int)
    requires b > 0
    ensures a >= 0 ==> q == a / b
    ensures a < 0 ==> q == -((-a) / b)
  {
    if a >= 0 then a / b else -((-a) / b)
  }

  /**
   * The whole seconds from `nowNanos` until a record's expiry time, as
   * strconv.Itoa(int(time.Until(t).Seconds())) writes them: 0xFC stamps
   * are milliseconds converted to nanoseconds in int64, 0xFD stamps seconds.
   */
  function UntilExpiry(rec: Record, nowNanos: int): string
    requires |rec.stamp| == StampWidth(rec.option)
  {
    var deadline :=
      if rec.option == EXPIRETIMEMS then Wrap64(ToInt64(LittleEndian(rec.stamp)) * 1_000_000)
      else LittleEndian(rec.stamp) * 1_000_000_000;
    Decimal.Itoa(Quot(Saturate64(deadline - nowNanos), 1_000_000_000))
  }

  /** The SET arguments a record is replayed as: key, value, and "PX"/"EX" with the seconds left. */
  function Args(rec: Record, nowNanos: int): (args: seq<RespValue.Value>)
    requires |rec.stamp| == StampWidth(rec.option)
    ensures |args| == if StampWidth(rec.option) == 0 then 2 else 4
    ensures args[0] == RespValue.Bulk(Text(rec.key)) && args[1] == RespValue.Bulk(Text(rec.value))
    ensures |args| == 4 ==> args[2].bulk == (if rec.option == EXPIRETIMEMS then "PX" else "EX")
  {
    var kv := [RespValue.Bulk(Text(rec.key)), RespValue.Bulk(Text(rec.value))];
    if rec.option == EXPIRETIMEMS then kv + [RespValue.Bulk("PX"), RespValue.Bulk(UntilExpiry(rec, nowNanos))]
    else if rec.option == EXPIRETIME then kv + [RespValue.Bulk("EX"), RespValue.Bulk(UntilExpiry(rec, nowNanos))]
    else kv
  }

  predicate Framed(recs: seq<Record>) {
    forall i :: 0 <= i < |recs| ==> |recs[i].stamp| == StampWidth(recs[i].option)
  }

  /** The keyspace after SET is replayed for each record in order. */
  function Replay(m: Handler.Table, recs: seq<Record>, nowNanos: int): Handler.Table
    requires Framed(recs)
    decreases |recs|
  {
    if recs == [] then m
    else Replay(Handler.SetOutcome(m, Args(recs[0], nowNanos)).1, recs[1..], nowNanos)
  }

  /** The keyspace with each record's key bound to its value, later records winning. */
  function Stored(m: Handler.Table, recs: seq<Record>): Handler.Table
    decreases |recs|
  {
    if recs == [] then m else Stored(m[Text(recs[0].key) := Text(recs[0].value)], recs[1..])
  }

  lemma {:induction false} WalkFramed(content: ByteSlice, j: uint8, count: nat)
    ensures Framed(Walk(content, j, count).0)
    decreases count
  {
    hide Walk, RecordAt;
    if count == 0 {
      WalkDone(content, j);
    } else {
      WalkStep(content, j, count);
      if RecordAt(content, j).Some? {
        var (rec, next) := RecordAt(content, j).value;
        WalkFramed(content, next, count - 1);
        FramedCons(rec, Walk(content, next, count - 1).0);
      }
    }
  }

  lemma FramedCons(rec: Record, rest: seq<Record>)
    requires |rec.stamp| == StampWidth(rec.option) && Framed(rest)
    ensures Framed([rec] + rest)
  {
  }

  lemma LoadFramed(c: ByteSlice)
    ensures Framed(Load(c).0)
  {
    if c.len != 0 && ParseTable(c).Some? && ParseTable(c).value.len != 0 {
      var content := ParseTable(c).value;
      WalkFramed(content, 2, content.window[0] as nat);
    }
  }

  /**
   * Expiry times never take effect: SET accepts only the lower-case option
   * "px", so an expiring record's "PX"/"EX" SET is rejected after it has
   * stored the value, and the keyspace ends up as if every record had been
   * stored without expiry, whatever the clock says.
   */
  lemma {:induction false} ExpiryIgnored(m: Handler.Table, recs: seq<Record>, nowNanos: int)
    requires Framed(recs)
    ensures Replay(m, recs, nowNanos) == Stored(m, recs)
    decreases |recs|
  {
    if recs != [] {
      var args := Args(recs[0], nowNanos);
      assert Handler.SetOutcome(m, args).1 == m[Text(recs[0].key) := Text(recs[0].value)];
      assert Framed(recs[1..]) by {
        forall i | 0 <= i < |recs[1..]|
          ensures |recs[1..][i].stamp| == StampWidth(recs[1..][i].option)
        {
          assert recs[1..][i] == recs[i + 1];
        }
      }
      ExpiryIgnored(Handler.SetOutcome(m, args).1, recs[1..], nowNanos);
    }
  }

  /** An expiring record's SET is answered with a syntax error. */
  lemma ExpiringRecordRejected(m: Handler.Table, rec: Record, nowNanos: int)
    requires |rec.stamp| == StampWidth(rec.option) && StampWidth(rec.option) != 0
    ensures Handler.SetOutcome(m, Args(rec, nowNanos)).0 == RespValue.Error(Handler.SyntaxError)
  {
  }

  /**
   * A load that does not panic replays exactly as many records as the
   * table's first byte says.
   */
  lemma LoadCount(c: ByteSlice)
    requires c.len != 0 && Load(c).1
    ensures ParseTable(c).Some? && ParseTable(c).value.len != 0
    ensures |Load(c).0| == ParseTable(c).value.window[0] as int
  {
  }

  /**
   * A field may run past the end of the table, through its EOF byte: Go
   * bounds the slice by capacity. The file FB 01 00 00 01 'k' 02 'v' FF
   * holds one record whose value is 'v' followed by the EOF byte.
   */
  lemma ValuePastTable()
    ensures Load(SliceRep(PastTableFile, |PastTableFile|)) == ([PastTableRecord], true)
  {
    var content: ByteSlice := SliceRep(PastTableFile[1..], 7);
    PastTableParsed();
    PastTableRecordRead();
    hide *;
    WalkStep(content, 2, 1);
    WalkDone(content, 8);
    assert [PastTableRecord] + [] == [PastTableRecord];
    LoadWalks(SliceRep(PastTableFile, |PastTableFile|));
  }

  const PastTableFile: seq<uint8> := [RESIZEDB, 1, 0, 0, 1, 0x6B, 2, 0x76, EOF]
  const PastTableRecord: Record := Record(0, [], [0x6B], [0x76, EOF])

  lemma PastTableParsed()
    ensures ParseTable(SliceRep(PastTableFile, |PastTableFile|)) == Some(SliceRep(PastTableFile[1..], 7))
  {
    var c := PastTableFile;
    assert Elements(SliceRep(c, |c|)) == c;
    assert IndexOf(c, RESIZEDB) == 0;
    assert IndexOf(c, EOF) == 8 by {
      assert EOF !in c[..8];
      IndexOfFirst(c, EOF, 8);
    }
  }

  lemma PastTableRecordRead()
    ensures RecordAt(SliceRep(PastTableFile[1..], 7), 2) == Some((PastTableRecord, 8))
  {
    var content: ByteSlice := SliceRep(PastTableFile[1..], 7);
    assert RecordBytes(PastTableRecord, 0) == [0, 1, 0x6B, 2, 0x76, EOF];
    assert content.window[2..8] == [0, 1, 0x6B, 2, 0x76, EOF];
    RecordAtStored(content, 2, PastTableRecord, 0);
  }

  /** A non-empty file with a non-empty table loads by walking the table from offset 2. */
  lemma LoadWalks(c: ByteSlice)
    requires c.len != 0 && ParseTable(c).Some? && ParseTable(c).value.len != 0
    ensures var t := ParseTable(c).value; Load(c) == Walk(t, 2, t.window[0] as nat)
  {
  }

  // ---------------------------------------------------------------------
  // readFile's loop
  // ---------------------------------------------------------------------

  /** content[j], then content[j+1 : j+1+len] and j += len + 1, as for key and value. */
  method ReadField(content: ByteSlice, j: uint8) returns (r: Option<(seq<uint8>, uint8)>)
    ensures r == FieldAt(content, j)
  {
    if j as int >= content.len {
      return None;
    }
    var len := content.window[j];
    var lo, hi := Add(j, 1), Add(Add(j, 1), len as int);
    if !(lo <= hi && hi as int <= |content.window|) {
      return None;
    }
    r := Some((content.window[lo..hi], Add(j, len as int + 1)));
  }

  /** One record read at cursor j, following the Go statements in order. */
  method ReadRecord(content: ByteSlice, j0: uint8) returns (r: Option<(Record, uint8)>)
    ensures r == RecordAt(content, j0)
  {
    var j := j0;
    if j as int >= content.len {
      return None;
    }
    var option := content.window[j];
    var stamp: seq<uint8> := [];
    if option == EXPIRETIMEMS {
      var lo, hi := Add(j, 1), Add(j, 9);
      if !(lo <= hi && hi as int <= |content.window|) {
        return None;
      }
      stamp := content.window[lo..hi];
      j := Add(j, 9);
    }
    if option == EXPIRETIME {
      var lo, hi := Add(j, 1), Add(j, 5);
      if !(lo <= hi && hi as int <= |content.window|) {
        return None;
      }
      stamp := content.window[lo..hi];
      j := Add(j, 5);
    }
    assert ExpiryAt(content, j0) == Some((option, stamp, j));
    // the value-type byte
    j := Add(j, 1);
    var key := ReadField(content, j);
    if key.None? {
      return None;
    }
    var value := ReadField(content, key.value.1);
    if value.None? {
      return None;
    }
    r := Some((Record(option, stamp, key.value.0, value.value.0), value.value.1));
  }

  /**
   * readFile on the file's bytes: replays the table's records through SET
   * and reports false where the Go code would panic.
   */
  method ReadFile(ks: Handler.Keyspace, c: ByteSlice, nowNanos: int) returns (ok: bool)
    modifies ks`sets
    ensures Framed(Load(c).0)
    ensures ok == Load(c).1
    ensures ks.sets == Replay(old(ks.sets), Load(c).0, nowNanos)
  {
    LoadFramed(c);
    if c.len == 0 {
      return true;
    }
    var table := ParseTable(c);
    if table.None? || table.value.len == 0 {
      return false;
    }
    ok := ReplayTable(ks, table.value, nowNanos);
  }

  /** The counted loop of readFile: content[0] records from offset 2, each replayed as SET. */
  method ReplayTable(ks: Handler.Keyspace, content: ByteSlice, nowNanos: int) returns (ok: bool)
    requires content.len > 0
    modifies ks`sets
    ensures Framed(Walk(content, 2, content.window[0] as nat).0)
    ensures ok == Walk(content, 2, content.window[0] as nat).1
    ensures ks.sets == Replay(old(ks.sets), Walk(content, 2, content.window[0] as nat).0, nowNanos)
  {
    hide *;
    var count := content.window[0] as nat;
    var j: uint8 := 2;
    var i := 0;
    ghost var done: seq<Record> := [];
    WalkFramed(content, j, count);
    JoinedNil(Walk(content, 2, count));
    ReplayNil(old(ks.sets), nowNanos);
    while i < count
      invariant 0 <= i <= count
      invariant Framed(done)
      invariant Walk(content, 2, count) == Joined(done, Walk(content, j, count - i))
      invariant ks.sets == Replay(old(ks.sets), done, nowNanos)
      decreases count - i
    {
      var next := ReadRecord(content, j);
      WalkStep(content, j, count - i);
      if next.None? {
        JoinedEmpty(done, false);
        return false;
      }
      var (rec, j') := next.value;
      ReplaySnoc(old(ks.sets), done, rec, nowNanos);
      JoinedSnoc(done, rec, Walk(content, j', count - i - 1));
      var _ := ks.Set(Args(rec, nowNanos));
      done := done + [rec];
      j := j';
      i := i + 1;
    }
    WalkDone(content, j);
    JoinedEmpty(done, true);
    ok := true;
  }

  lemma ReplayNil(m: Handler.Table, nowNanos: int)
    ensures Framed([]) && Replay(m, [], nowNanos) == m
  {
  }

  /** The records read so far in front of what the rest of the walk gives. */
  function Joined(done: seq<Record>, rest: (seq<Record>, bool)): (seq<Record>, bool) {
    (done + rest.0, rest.1)
  }

  lemma JoinedNil(rest: (seq<Record>, bool))
    ensures Joined([], rest) == rest
  {
    assert [] + rest.0 == rest.0;
  }

  lemma JoinedEmpty(done: seq<Record>, fine: bool)
    ensures Joined(done, ([], fine)) == (done, fine)
  {
    assert done + [] == done;
  }

  lemma JoinedSnoc(done: seq<Record>, rec: Record, rest: (seq<Record>, bool))
    ensures Joined(done, ([rec] + rest.0, rest.1)) == Joined(done + [rec], rest)
  {
    assert done + ([rec] + rest.0) == (done + [rec]) + rest.0;
  }

  lemma WalkStep(content: ByteSlice, j: uint8, count: nat)
    requires count > 0
    ensures RecordAt(content, j).None? ==> Walk(content, j, count) == ([], false)
    ensures RecordAt(content, j).Some? ==>
              var (rec, next) := RecordAt(content, j).value;
              var rest := Walk(content, next, count - 1);
              Walk(content, j, count) == ([rec] + rest.0, rest.1)
  {
  }

  lemma FirstAndRest(recs: seq<Record>)
    requires recs != []
    ensures [recs[0]] + recs[1..] == recs && |recs[1..]| == |recs| - 1
  {
  }

  /** A walk that reads rec first goes on from the cursor after it. */
  lemma WalkCons(content: ByteSlice, j: uint8, count: nat, rec: Record, next: uint8)
    requires count > 0 && RecordAt(content, j) == Some((rec, next))
    ensures var rest := Walk(content, next, count - 1);
            Walk(content, j, count) == ([rec] + rest.0, rest.1)
  {
  }

  lemma WalkDone(content: ByteSlice, j: uint8)
    ensures Walk(content, j, 0) == ([], true)
  {
  }

  /** Replaying one more record is one more SET on the keyspace so far. */
  lemma {:induction false} ReplaySnoc(m: Handler.Table, recs: seq<Record>, rec: Record, nowNanos: int)
    requires Framed(recs) && |rec.stamp| == StampWidth(rec.option)
    ensures Framed(recs + [rec])
    ensures Replay(m, recs + [rec], nowNanos) == Handler.SetOutcome(Replay(m, recs, nowNanos), Args(rec, nowNanos)).1
    decreases |recs|
  {
    if recs == [] {
      assert [] + [rec] == [rec];
    } else {
      assert (recs + [rec])[0] == recs[0] && (recs + [rec])[1..] == recs[1..] + [rec];
      assert Framed(recs[1..]) by {
        forall i | 0 <= i < |recs[1..]|
          ensures |recs[1..][i].stamp| == StampWidth(recs[1..][i].option)
        {
          assert recs[1..][i] == recs[i + 1];
        }
      }
      ReplaySnoc(Handler.SetOutcome(m, Args(recs[0], nowNanos)).1, recs[1..], rec, nowNanos);
    }
  }
}
