# go-redis core in Dafny

A model of the core of a small Redis clone written in Go, with proofs about it:

- **RESP codec.** The internal package `internal/resp` holds the Value record, its serialiser and a byte reader. The server package keeps its own copy in `app/resp.go`. That copy has no integer field and writes null as `_\r\n`.
- **Command handlers.** PING, ECHO, SET, GET and CONFIG GET work over the keyspace and configuration tables. `unset` is what an expiry timer calls.
- **RDB loading.** The key/value table is parsed out of an RDB snapshot and replayed through SET.
- **Geohash.** The integer geohash interleaving and its inverse.
- **Sorted-set scores.** The ordering of geo scores and regular scores.
- **The sorted set.** Its heap interface methods, including FindByIndex and FindByRank.
- **Server loops.** The dispatch of one client connection's requests (MULTI nesting, unknown commands, queueing, execution, broadcast). Also the replica's loop over its master link with its offset, and the propagation loop's per-slave offsets.

Sockets, goroutines and the broadcast channel are removed. Bytes read from a connection or a file are an input sequence. What a loop writes back or broadcasts is its result. The clock is a parameter, given as nanoseconds since the epoch.

Modules, one per file:

| module | file |
|---|---|
| `Wrappers` | Option and Result |
| `Decimal` | `strconv.Itoa` and `strconv.ParseInt(s, 10, 64)` |
| `RespValue`, `RespMarshal`, `RespRead`, `RespRoundTrip`, `RespQuirks` | `internal/resp` |
| `AppResp` | `app/resp.go` |
| `Handler` | `app/handler.go` |
| `Rdb` | `app/rdb.go` |
| `Geohash` | `internal/geohash/geohash.go` |
| `GeoSet` | `internal/set/geoset.go` |
| `SortedSet` | `internal/set/set.go` |
| `ServerLoop` | `app/server.go` |

The code shows behaviour that a reader of the design might not expect. Each item is proved as a lemma about the code as written:

- **readLine.** It ends a line at the first `\r` and consumes the following byte unchecked.
- **readBulk.** It drops the declared length and reads the next line, so `$-1\r\n` is not a null.
- **readArray.** A non-positive count reads as an empty array.
- **Unknown leading byte.** Any other leading byte yields the zero Value and no error.
- **SET with a rejected option.** SET stores the key before it checks the option. A rejected option therefore still stores the value.
- **Expiring RDB records.** These records are replayed as `SET k v PX n` or `SET k v EX n`. SET compares the option with lowercase `"px"`, so every such record is answered with a syntax error, yet stored without expiry.
- **RDB fields past the table.** `parseTable` returns `bytes[start+1:end]`, a slice that keeps the file's capacity. Go bounds a slice expression by capacity, not by length. So a key or value whose length byte overruns the table is read on through the EOF byte and the rest of the file, without a panic.
- **PSYNC and REPLCONF.** Neither is in the Handlers table. `Handle` answers both with "unknown command" and continues before it reaches the broadcast test or the PSYNC branch. The REPLCONF GETACK broadcast and the RDB transfer can therefore never happen from that loop.

## Model

| member | source | states |
|---|---|---|
| RespValue.TypeOfTag | internal/resp/value.go:11-26 | the type name of a leading byte is empty exactly when the byte is none of the five RESP tags |
| RespValue.TagsNameOneKind | internal/resp/value.go:3-26 | distinct tags name distinct types; the six type names are distinct; the zero Value's type is none of them |
| RespMarshal.Marshal | internal/resp/marshal.go:8-24 | an array, bulk, string, null or error value is written starting with its tag byte; every other type, integer included, is written as nothing |
| RespMarshal.NullEncoding | internal/resp/marshal.go:67-69 | null is always written as the null bulk string `$-1\r\n` |
| RespMarshal.BulkEncodingLength | internal/resp/marshal.go:34-43 | a bulk is written as its length digits, the payload and two CRLFs after the tag, and ends in CRLF |
| RespMarshal.StringAndErrorDifferInTag | internal/resp/marshal.go:26-65 | a simple string and an error with the same text are written identically except for the leading `+` or `-` |
| RespMarshal.MarshalAllAppend | internal/resp/marshal.go:45-57 | writing the elements of a concatenation is the concatenation of the writings |
| RespMarshal.MarshalAllLength | internal/resp/marshal.go:45-57 | the element part of an array's encoding is as long as the sum of the elements' encodings |
| Decimal.Itoa | internal/resp/marshal.go:34-43 | decimal writing: at least one digit, a minus sign exactly for negatives |
| Decimal.ParseInt | internal/resp/resp.go:30-42 | a parse that succeeds gives an int64 and starts with a digit or a sign |
| Decimal.ParseIntAccepts | internal/resp/resp.go:30-42 | a parse succeeds exactly when the text after an optional '+' or '-' is one or more decimal digits whose signed value fits in int64, and then returns that signed value |
| Decimal.ParseIntOfItoa | internal/resp/resp.go:30-42 | every int64 written by Itoa is parsed back to itself |
| RespRead.FirstCR | internal/resp/resp.go:13-28 | the position of the first `\r` from the cursor on, or the end of input |
| RespRead.LineAt | internal/resp/resp.go:13-28 | a line is the bytes before the first `\r`, the count is its length plus two, the cursor moves past the byte after the `\r`; when no `\r` with a byte after it remains, the error is end of input with the whole input consumed |
| RespRead.IntegerAt | internal/resp/resp.go:30-42 | a successful integer line fits in int64 and consumes at least two bytes |
| RespRead.ValueAt | internal/resp/resp.go:45-60 | a successful read consumes at least one byte and never moves past the input |
| RespRead.BulkAt | internal/resp/resp.go:62-77 | a successful bulk read yields a bulk |
| RespRead.ArrayAt | internal/resp/resp.go:79-99 | a successful array read yields an array |
| RespRead.ElementsAt | internal/resp/resp.go:88-96 | exactly the declared count of elements is read, none for a count of zero or less |
| RespRead.Reader.ReadLine | internal/resp/resp.go:13-28 | the byte-by-byte loop's result and new cursor are LineAt's |
| RespRead.Reader.ReadInteger | internal/resp/resp.go:30-42 | result and new cursor are IntegerAt's |
| RespRead.Reader.Read | internal/resp/resp.go:45-60 | result and new cursor are ValueAt's |
| RespRead.Reader.ReadBulk | internal/resp/resp.go:62-77 | result and new cursor are BulkAt's |
| RespRead.Reader.ReadArray | internal/resp/resp.go:79-99 | the element loop's result and new cursor are ArrayAt's |
| RespRoundTrip.LineAtKnown | internal/resp/resp.go:13-28 | a line without `\r` followed by CRLF is read back exactly |
| RespRoundTrip.IntegerAtKnown | internal/resp/resp.go:30-42 | a length written by Itoa and followed by CRLF is read back as that length |
| RespRoundTrip.ReadMarshalAt | internal/resp/resp.go:45-60 | a well-formed value's encoding, anywhere in the input and followed by anything, is read back as that value, consuming exactly its encoding |
| RespRoundTrip.ReadMarshalAllAt | internal/resp/resp.go:88-96 | the encodings of a sequence of well-formed values are read back as that sequence |
| RespRoundTrip.ReadMarshal | internal/resp/resp.go:45-99 | Read after Marshal is the identity on request frames (bulks without `\r`, and arrays of such frames nested to any depth) and consumes the whole encoding |
| RespQuirks.LineIgnoresNewline | internal/resp/resp.go:13-28 | any byte after the first `\r`, not just `\n`, ends the line and is consumed |
| RespQuirks.BulkIgnoresLength | internal/resp/resp.go:62-77 | whatever decimal length a bulk declares, its payload is the next line |
| RespQuirks.NullBulkIsNotNull | internal/resp/resp.go:45-77 | `$-1\r\n` followed by a line is read as a bulk holding that line, not as null |
| RespQuirks.NonPositiveCountIsEmpty | internal/resp/resp.go:79-99 | an array declaring zero or a negative count is read as an empty array after its count line |
| RespQuirks.NonDecimalLength | internal/resp/resp.go:30-42 | a length or count line that is not an int64 decimal fails with the integer parse error, for bulks and arrays alike |
| RespQuirks.UnknownTagIsZero | internal/resp/resp.go:45-60 | any leading byte other than `$` and `*` yields the zero Value without error after one byte |
| RespQuirks.TruncatedLine | internal/resp/resp.go:13-28 | input that ends before a `\r` is end of input with the cursor at the end |
| AppResp.Marshal | app/resp.go:122-138 | array, bulk, string, null and error are written starting with their tag byte; any other type is written as nothing |
| AppResp.NullDiffers | app/resp.go:181-183 | this copy writes null as `_\r\n` where the internal package writes `$-1\r\n` |
| AppResp.MarshalAgrees | app/resp.go:122-179 | on values without a null anywhere, this copy writes exactly what the internal serialiser writes |
| AppResp.MarshalAllAgrees | app/resp.go:159-171 | the same agreement for the elements of an array |
| AppResp.ProjectEmbed | app/resp.go:21-26 | this Value is the internal Value without its integer field: dropping the field after adding it back gives the original value |
| AppResp.RoundTrip | app/resp.go:66-120 | Read after Marshal is the identity on this copy's well-formed values |
| AppResp.Read | app/resp.go:66-81 | result and new cursor are the internal decoder's with the integer field dropped |
| AppResp.ReadBulk | app/resp.go:83-98 | the same for a bulk |
| AppResp.ReadArray | app/resp.go:100-120 | the same for an array |
| Handler.Ping | app/handler.go:20-22 | PING answers the simple string PONG whatever its arguments |
| Handler.Echo | app/handler.go:24-30 | ECHO with exactly one argument answers it as a simple string; otherwise the arity error |
| Handler.SetOutcome | app/handler.go:35-63 | wrong arity answers the arity error and changes nothing; with two or four arguments the key is bound to the value whatever the reply; the reply is OK exactly when there are two arguments, or four with `px` and an int64 count; every other reply is an error |
| Handler.GetReply | app/handler.go:71-85 | arity error exactly for a count other than one; null exactly when the key is absent; otherwise the stored value as a bulk |
| Handler.ConfigGet | app/handler.go:103-115 | an array, holding the name and its value when the name is configured, empty otherwise |
| Handler.ConfigReply | app/handler.go:90-101 | arity error unless there are two arguments; an array exactly for the GET subcommand; any other subcommand is named in an error |
| Handler.Keyspace.Set | app/handler.go:35-63 | reply and new keyspace are SetOutcome's |
| Handler.Keyspace.Unset | app/handler.go:65-69 | the key is removed and every other binding is kept |
| Handler.Keyspace.Get | app/handler.go:71-85 | the reply is GetReply's on the current keyspace |
| Handler.Keyspace.Config | app/handler.go:90-115 | the reply is ConfigReply's on the configuration table |
| Handler.SetThenGet | app/handler.go:35-85 | after a SET with two or four arguments, GET of its key answers the value set |
| Handler.RejectedOptionStillStores | app/handler.go:45-48 | a four-argument SET whose option is not `px` answers a syntax error, yet GET then finds the value |
| Handler.UnsetThenGet | app/handler.go:65-85 | after unset, GET of that key answers null and GET of any other key is unchanged |
| Rdb.Add | app/rdb.go:53-81 | the byte cursor advances modulo 256 |
| Rdb.IndexOf | app/rdb.go:21-29 | -1 exactly when the byte is absent, otherwise the position of its first occurrence |
| Rdb.SliceIndex | app/rdb.go:21-29 | the loop returns IndexOf's answer |
| Rdb.IndexOfFirst | app/rdb.go:21-29 | a position holding the byte with no earlier occurrence is IndexOf's answer |
| Rdb.ParseTable | app/rdb.go:31-35 | a table exists exactly when the file has an EOF opcode and its first RESIZEDB, if any, comes before its first EOF, otherwise the slice panics; the table's window starts right after the first RESIZEDB and keeps the file's capacity, and its length stops at the first EOF |
| Rdb.TableEndsAtEOF | app/rdb.go:31-35 | the byte just past the table's length, inside its capacity, is the EOF |
| Rdb.ParseTableBetween | app/rdb.go:31-35 | the table is exactly the bytes strictly between the first RESIZEDB (or the start) and the first EOF |
| Rdb.Slice | app/rdb.go:75-81 | a slice exists exactly when its bounds are ordered and within the content's capacity, not just its length, and holds the window's bytes between them |
| Rdb.FieldAt | app/rdb.go:75-81 | a cursor beyond the content's length panics; otherwise the read succeeds exactly when the byte-wrapped bounds j+1 and j+1+len are ordered and within the capacity, so the field may run on past the length; the field is the window's bytes between those bounds, as long as the length byte says, and the cursor moves past it modulo 256 |
| Rdb.FieldAtStored | app/rdb.go:75-81 | a length byte followed by that many bytes is read back as exactly those bytes, with the cursor just after them, even where the bytes lie past the content's length |
| Rdb.ExpiryAt | app/rdb.go:55-71 | a cursor beyond the content's length panics; the option is the byte at the cursor; 0xFC is followed by 8 time bytes and 0xFD by 4, read from the window and failing exactly when their byte-wrapped bounds are unordered or beyond the capacity; any other option has no time bytes and always succeeds; the cursor moves past the option and its time bytes |
| Rdb.RecordAtReads | app/rdb.go:55-81 | a record is ExpiryAt's option and stamp, then FieldAt's key after the skipped value-type byte, then FieldAt's value; it fails exactly when one of the three reads fails |
| Rdb.ExpiryAtStored | app/rdb.go:55-71 | a stored option, stamp and value-type byte are read back, with the cursor on the value-type byte |
| Rdb.RecordAtStored | app/rdb.go:55-81 | a record laid out as option, stamp, value-type byte, key and value is read back whole, with the cursor just after it; its value may run on past the content's length |
| Rdb.WalkStored | app/rdb.go:53-95 | records laid out one after another are walked back, all of them, in order, without a panic |
| Rdb.Walk | app/rdb.go:53-95 | a walk that does not panic reads exactly the announced number of records, and never more |
| Rdb.Load | app/rdb.go:37-54 | an empty file loads nothing and succeeds |
| Rdb.LoadCount | app/rdb.go:43-54 | a non-empty file that loads has a non-empty table whose first byte is the number of records loaded |
| Rdb.LoadFramed | app/rdb.go:55-73 | every loaded record carries as many time bytes as its option demands |
| Rdb.Text | app/rdb.go:75-81 | string(b) keeps each byte as one character |
| Rdb.LittleEndian | app/rdb.go:58-70 | a little-endian number of k bytes is below 256^k |
| Rdb.ToInt64 | app/rdb.go:58-63 | the uint64-to-int64 conversion stays in range and agrees modulo 2^64 |
| Rdb.Wrap64 | app/rdb.go:58-63 | the int64 product stays in range and agrees modulo 2^64 |
| Rdb.Saturate64 | app/rdb.go:58-70 | the duration difference stays in int64 and is exact when it fits |
| Rdb.Quot | app/rdb.go:58-70 | whole seconds are a quotient truncated toward zero |
| Rdb.Args | app/rdb.go:83-92 | a record is replayed as key and value, plus `PX` or `EX` and a count exactly when it has an expiry |
| Rdb.ExpiryIgnored | app/rdb.go:83-94 | replaying any loaded records binds each key to its value, later records winning, whether or not they expire |
| Rdb.ExpiringRecordRejected | app/rdb.go:83-94 | every record with an expiry is answered with SET's syntax error |
| Rdb.ReplaySnoc | app/rdb.go:94 | replaying one more record applies one more SET to the table |
| Rdb.ReadField | app/rdb.go:75-81 | the byte reads return FieldAt's answer: the window bytes after the length byte, bounded by the capacity, or a panic |
| Rdb.ReadRecord | app/rdb.go:55-81 | one loop iteration returns RecordAt's record and cursor: the expiry part, the key and the value read in turn, or a panic |
| Rdb.ReplayTable | app/rdb.go:52-95 | the loop succeeds exactly when Walk does, and the keyspace becomes the replay of the records walked |
| Rdb.ReadFile | app/rdb.go:37-99 | success exactly when Load succeeds, and the keyspace becomes the replay of the loaded records |
| Rdb.ValuePastTable | app/rdb.go:75-94 | in the file FB 01 00 00 01 'k' 02 'v' FF, the value runs through the EOF byte: the file loads one record binding k to "v\xFF" and succeeds |
| Geohash.Spread | internal/geohash/geohash.go:36-46 | spreading leaves every odd bit clear |
| Geohash.Compact | internal/geohash/geohash.go:66-75 | compacting leaves the upper 32 bits clear |
| Geohash.SpreadBit | internal/geohash/geohash.go:36-46 | bit i of the input lands on bit 2i, and bit 2i+1 is clear |
| Geohash.CompactSpread | internal/geohash/geohash.go:36-75 | compact inverts spread on the low 32 bits |
| Geohash.CompactEvenOnly | internal/geohash/geohash.go:66-75 | compact reads only the even bits |
| Geohash.InterleaveHalves | internal/geohash/geohash.go:28-34 | the even bits of a score are the spread latitude, the odd bits the spread longitude |
| Geohash.InterleaveIsSum | internal/geohash/geohash.go:28-34 | the two spread halves do not overlap, so the OR is a sum |
| Geohash.SarEven | internal/geohash/geohash.go:48-53 | the arithmetic shift used in decoding agrees with the logical shift on the even bits |
| Geohash.DecodeInterleave | internal/geohash/geohash.go:28-64 | decoding an interleaved score gives back both grid numbers, truncated to 32 bits |
| Geohash.ScoreBound | internal/geohash/geohash.go:28-34 | two 26-bit grid numbers interleave into a score below 2^52 |
| GeoSet.String | internal/set/geoset.go:21-23 | the text of a geo score parses back to its integer score |
| GeoSet.Trichotomy | internal/set/geoset.go:59-75 | on scores of one kind exactly one of less, equal and greater holds |
| GeoSet.CrossKind | internal/set/geoset.go:59-75 | a geo score and a regular score are neither less nor equal, both ways |
| GeoSet.OrderLaws | internal/set/geoset.go:59-75 | Less is irreflexive and transitive; Equal is an equivalence compatible with Less |
| GeoSet.CoordinatesIgnored | internal/set/geoset.go:59-75 | comparisons of a geo score do not depend on its longitude and latitude |
| SortedSet.StrLessIrreflexive | internal/set/set.go:23-29 | no name sorts before itself |
| SortedSet.StrLessTransitive | internal/set/set.go:23-29 | the name order is transitive |
| SortedSet.StrLessTotal | internal/set/set.go:23-29 | of two distinct names one sorts first |
| SortedSet.MemberLessOrder | internal/set/set.go:23-29 | member order is irreflexive and transitive |
| SortedSet.MemberLessTotal | internal/set/set.go:23-29 | two differently named members with scores of one kind are ordered one way or the other |
| SortedSet.CountLessPermutation | internal/set/set.go:62-81 | the number of members below a member depends only on the multiset of members |
| SortedSet.Set.Len | internal/set/set.go:19-21 | the number of members |
| SortedSet.Set.Less | internal/set/set.go:23-29 | equal scores compare by name, otherwise by score |
| SortedSet.Set.Swap | internal/set/set.go:31-33 | exactly the two members are exchanged; the multiset is kept |
| SortedSet.Set.Push | internal/set/set.go:35-42 | a member is appended; anything else leaves the set unchanged |
| SortedSet.Set.Pop | internal/set/set.go:44-50 | the last member is removed and returned |
| SortedSet.Set.FindByIndex | internal/set/set.go:52-60 | the first position holding the name, or -1 exactly when no member has it |
| SortedSet.Set.HeapPop | internal/set/set.go:67 | heap.Pop through the interface removes and returns a member of the set; the model's choice is one that no other member is less than |
| SortedSet.Set.HeapPush | internal/set/set.go:77 | heap.Push through the interface adds the member |
| SortedSet.Set.FindByRank | internal/set/set.go:62-81 | -1 exactly when no member has the name; otherwise a member with the name and the number of members below it as rank; the set holds the same members afterwards |
| SortedSet.Set.PushAll | internal/set/set.go:76-78 | pushing back the popped members restores them all |
| ServerLoop.ToUpper | app/server.go:143 | same length, no lowercase ASCII letter left, every other character kept |
| ServerLoop.ToUpperIdempotent | app/server.go:143 | upper-casing twice is upper-casing once |
| ServerLoop.Decide | app/server.go:133-169 | non-arrays and empty arrays are skipped; a nested MULTI and an unknown command are refused with an error; while a transaction is open every known command is queued; MULTI, EXEC and DISCARD go to the transaction code; otherwise a known command runs on the array's tail; each case exactly under its condition |
| ServerLoop.DecideCaseInsensitive | app/server.go:143 | the decision does not depend on the case of the command name |
| ServerLoop.Run | app/handler.go:11-18 | each handler's reply: PING, ECHO, SET, GET, CONFIG and KEYS answer as their handlers say; only SET changes the keyspace, as SetOutcome says |
| ServerLoop.ShouldBroadcast | app/server.go:177-178 | a write command is always broadcast; any other command exactly when it is REPLCONF whose second argument upper-cases to GETACK and slaves exist |
| ServerLoop.Step | app/server.go:133-180 | one reply per request and none for a skipped value; an executed request gets Run's reply and leaves Run's keyspace; a broadcast is the request's own encoding and only for write commands; a refusal changes nothing; queueing appends the request and answers QUEUED |
| ServerLoop.NestedMultiRefused | app/server.go:147-151 | MULTI inside a transaction is refused and changes nothing |
| ServerLoop.UnknownRefused | app/server.go:158-163 | a command outside the table is answered "ERR unknown command" and changes nothing |
| ServerLoop.ReplicationCommandsRefused | app/server.go:158-201 | PSYNC and REPLCONF are refused as unknown, so they change nothing and broadcast nothing |
| ServerLoop.ServeReplies | app/server.go:123-202 | a connection gets exactly one reply per request |
| ServerLoop.ServeBroadcasts | app/server.go:177-180 | every broadcast is the encoding of one of the connection's write requests |
| ServerLoop.IdleStaysIdle | app/server.go:146-175 | without transaction commands, an idle connection never opens a transaction or queues |
| ServerLoop.IdleAppliesSets | app/server.go:133-180 | without transaction commands, an idle connection ends with the keyspace its SET requests produce, applied in order |
| ServerLoop.ActiveOnlyQueues | app/server.go:165-169 | without transaction commands, an open transaction only queues: the keyspace is unchanged and nothing is broadcast |
| ServerLoop.Queue.constructor | app/server.go:121 | a connection starts with no transaction and an empty queue |
| ServerLoop.RunHandler | app/server.go:205-207 | reply and keyspace are Run's |
| ServerLoop.Dispatch | app/server.go:133-180 | the new queue, keyspace, replies and broadcasts are Step's |
| ServerLoop.Handle | app/server.go:118-203 | the loop's replies, broadcasts and final keyspace are those of serving the whole request sequence from an idle connection |
| ServerLoop.ReplicateStops | app/server.go:375-380 | an unknown command from the master ends the loop: nothing after it is applied or counted |
| ServerLoop.ReplicaOffsetIsSent | app/server.go:389-392 | when every value is a known command, the offset grows by the total length of their encodings |
| ServerLoop.SentAppend | app/server.go:392 | offset growth is additive over consecutive stretches of messages |
| ServerLoop.Server.HandleMaster | app/server.go:350-394 | the new keyspace and the offset growth are Replicate's |
| ServerLoop.Propagate | app/server.go:400-407 | every slave's offset grows by the message length |
| ServerLoop.PropagateAll | app/server.go:396-409 | every slave's offset grows by the total length of the messages |

## Left out

- File and socket I/O: reading the RDB file, `net.Conn`, the writer of `internal/resp/writer.go`. A connection is a sequence of values and the file is a byte sequence. Write errors are not modelled: `Handle` assumes a reply is always written (a failed write at app/server.go:171-174 would skip the broadcast), and `HandleMaster` assumes the same for REPLCONF replies (app/server.go:384-387).
- Concurrency: the mutexes, the goroutines and the broadcast channel. A broadcast is a returned message, and `PropagateAll` takes the channel's messages as a sequence.
- The expiry timer of SET (app/handler.go:56-59). `Keyspace.Unset` is the call it ends in, modelled on its own.
- KEYS (app/handler.go:117-136). It reads the snapshot file, so its reply is the parameter `keysReply`.
- multi, exec, discard and `WriteCommands`. They are not in the modelled files. The transaction step and the write-command set are parameters in `Env`.
- The connection handshake (`connectToMaster`) and the PSYNC snapshot transfer. The transfer is unreachable from `Handle` anyway, as stated above.
- Float arithmetic: the coordinate normalisation and the grid-midpoint decoding of geohash.go, dist.go, and the float ordering of regular scores (normalset.go). Regular scores are carried as reals compared exactly.
- The duplicate spread and interleave code of geoset.go (lines 33-57). It is modelled once, in `Geohash`.
- `UntilExpiry`: `time.Until` is modelled on integer nanoseconds. The float conversion of `Seconds()` is modelled as truncation toward zero.
- app/set.go, a copy of internal/set/set.go, is not part of this model.
- SortedSet.Set.HeapPop: the binary-heap layout that container/heap maintains is not modelled. `HeapPop` returns a minimal member by scanning and `HeapPush` appends, so the contracts speak of multisets, not of slice positions. When scores of both kinds are mixed, Go's `heap.Pop` need not return a minimal member. `Less` across kinds is false both ways, so a valid heap can hold a geo root A with a regular child B whose geo child C is less than A; `heap.Pop` then returns A, which the model cannot return. For sets of one kind the root of a valid heap is minimal, and the model agrees.
- SortedSet.Set.FindByRank: accepts any set, but promises the rank only when all scores are of one kind. With mixed kinds the order is not total and the source's rank has no meaning; the found/not-found answer and the unchanged members hold for every set.
- SortedSet.Set.Pop: requires a non-empty set. The source panics on an empty one; it is only reached through heap.Pop on a non-empty set.
- ServerLoop.Propagate: requires the slaves to be distinct objects. The source never registers one connection twice.
- ServerLoop.ToUpper: upper-cases ASCII letters only. Go's `strings.ToUpper` also maps other Unicode letters, some of them to ASCII: 'ſ' becomes 'S' and 'ı' becomes 'I'. So Go runs "ſet" as SET and "pıng" as PING (app/server.go:143), but the model refuses them as unknown commands.
- Handler.ConfigGet: requires one argument. `config` always passes exactly one.
- Go panics in rdb.go are a `false` result or `None`, after the records already replayed. An index panics beyond the slice's length; a slice expression panics only beyond its capacity.
- Rdb.ReadFile: takes the file as a slice whose spare capacity is a parameter. `os.ReadFile` leaves those spare bytes zero; the model allows any bytes there, so it promises nothing about their values.
- The internal `Value` is the one `server.go` reads and writes, so `ServerLoop` uses `RespValue` and `RespMarshal`, as app/server.go does (`resp.Value`, `value.Marshal()`).
