# cache-dns in Dafny

A model of the two sequential cores of cache-dns, a small caching DNS forwarder
written in C#.

1. **The DNS wire codec.** This covers:
   - the big-endian integer and text conversions of `Infrastructure/Convert.cs`;
   - the five code wrappers (`QueryType`, `QueryClass`, `OpCode`, `RCode`, `MessageType`);
   - `Question`, `Record` and `DnsMessage`, which parse and write the message layout of section 4.1 of RFC 1035.
2. **The record cache of `App/DnsServer.cs`.** This covers:
   - the lookup that answers a query from the cached records;
   - the learning step that appends the records of an upstream reply;
   - `GetAnswer`, which chooses between the two;
   - `Domain/CacheRecord.cs`, which stamps each learned record with its due time.

The model follows the code, quirks included. Every exception the C# code can throw in these paths becomes a `Failure` value:
- an index past the end of the buffer;
- `First()` on an empty sequence;
- `BitConverter` given too few bytes.

The quirks the model keeps:
- **Names.** The name reader follows the label form of section 3.1 of RFC 1035 but not the compression of section 4.1.4. Every non-zero byte is a label length, and every label is appended to the name with a trailing '.'.
- **Header flags.** The decoder compares each masked flag bit with `1` rather than with zero. QR, AA, TC and RA therefore always decode as false; only RD, OpCode and RCode survive a round trip. `Messages.DecodeAsWritten` and `Messages.FromBytes` model the decoder as written. `Messages.Decode` is a reference decoder that tests the bits against zero. `Messages.AsWrittenClears` proves the decoder as written is the reference decoder followed by clearing those four flags.
- **`DataLength`.** `Record.DataLength` is kept apart from `Data`. `Data` is read with `Take`, so it is silently shorter when the buffer ends early, while `next` always advances by `DataLength`.
- **Cache matching.** `Question.Equals` is handed a `CacheRecord` in the lookup and a `Record` in the learning step. Its `obj is Question` test fails for both, so no cached record ever matches. The argument of `Equals` is the sum type `Questions.Object`. The lookup is defined and proved for any match predicate (`Server.Hits`, `Server.Lookup`), and `Server.SourceMatch` instantiates it with the source's call. `Server.AsWrittenMisses` shows the consequence: every query with a question misses the cache.
- **The placeholder record.** `SaveToCache` builds a placeholder record for each question and discards it, because `records.Append(...)` returns a new sequence that is never used. The method keeps that loop, and its postcondition shows that the cache grows by the reply's records only.

Modules follow the source files:

| module | file |
|---|---|
| `Wrappers` | `Result`/`Option` and the error kinds |
| `Linq` | `Skip`, `Take`, `First`, `Select`, `SelectMany` and position lemmas |
| `Convert` | `Infrastructure/Convert.cs` |
| `QueryTypes`, `QueryClasses`, `OpCodes`, `RCodes`, `MessageTypes` | the five code wrappers |
| `Names` | the name loops shared by `Question.cs` and `Record.cs` |
| `Questions` | `Domain/DnsMessage/Question.cs` |
| `Records` | `Domain/DnsMessage/Record.cs` |
| `Messages` | `Domain/DnsMessage/DnsMessage.cs` |
| `CacheRecords` | `Domain/CacheRecord.cs` |
| `Server` | `App/DnsServer.cs` |

Each loop of the source is a `method` with a `while` or `for` loop. Its postcondition ties the method to a function: `Names.Read` and `Names.Write`, `Questions.Parse` and `Questions.GetBytes`, `Records.Parse` and `Records.GetBytes`, `Messages.FromBytes` and `Messages.GetBytes`, and the two server loops. The round trips and other properties are lemmas about those functions. The cache is a field of the class `Server.DnsServer`, which its methods update.

## Model

| member | source | states |
|---|---|---|
| Convert.WrapInt16 | Domain/DnsMessage/DnsMessage.cs:39-40 | The `(short)` cast keeps values in range and is otherwise congruent to its argument modulo 2^16 |
| Convert.Unsigned16 | Infrastructure/Convert.cs:23-34 | The unsigned 16-bit form of a short is below 2^16 and reads back as the same short |
| Convert.Unsigned32 | Infrastructure/Convert.cs:10-21 | The unsigned 32-bit form of an int is below 2^32 and reads back as the same int |
| Convert.GetBytesShortIsBigEndian | Infrastructure/Convert.cs:30-34 | `GetBytes(short)` gives the same two bytes on either host byte order, high byte first, each equal to the matching digit of the unsigned value |
| Convert.GetBytesIntIsBigEndian | Infrastructure/Convert.cs:17-21 | `GetBytes(int)` gives the same four bytes on either host byte order, most significant first |
| Convert.ToShortIsBigEndian | Infrastructure/Convert.cs:23-28 | On at most two bytes, as `Take(2)` gives it, `ToShort` fails exactly when fewer than two are given; on two bytes it gives their big-endian two's complement value on either host |
| Convert.ToIntIsBigEndian | Infrastructure/Convert.cs:10-15 | On at most four bytes, as `Take(4)` gives it, `ToInt` fails exactly when fewer than four are given; on four bytes it gives their big-endian two's complement value on either host |
| Convert.BigEndian16Value | Infrastructure/Convert.cs:23-28 | Two bytes read as a short are hi*256+lo, minus 65536 when hi is at least 0x80 |
| Convert.ShortRoundTrip | Infrastructure/Convert.cs:23-34 | `ToShort(GetBytes(n)) == n` for every short |
| Convert.IntRoundTrip | Infrastructure/Convert.cs:10-21 | `ToInt(GetBytes(n)) == n` for every int |
| Convert.ShortAtIsToShort | Infrastructure/Convert.cs:23-28 | `ToShort(message.Skip(at).Take(2))` is the two-byte read at `at`, failing when the buffer ends first |
| Convert.IntAtIsToInt | Infrastructure/Convert.cs:10-15 | `ToInt(message.Skip(at).Take(4))` is the four-byte read at `at`, failing when the buffer ends first |
| Convert.ToShort | Infrastructure/Convert.cs:23-28 | `Convert.ToShort` on the little-endian host: fails exactly when fewer than two bytes are given, and two bytes give their big-endian two's complement value |
| Convert.ToInt | Infrastructure/Convert.cs:10-15 | `Convert.ToInt` on the little-endian host: fails exactly when fewer than four bytes are given, and four bytes give their big-endian two's complement value |
| Convert.GetBytesShort | Infrastructure/Convert.cs:30-34 | `Convert.GetBytes(short)`: two bytes that read back big-endian as the short |
| Convert.GetBytesInt | Infrastructure/Convert.cs:17-21 | `Convert.GetBytes(int)`: four bytes that read back big-endian as the int |
| Convert.ShortAtGetBytes | Infrastructure/Convert.cs:23-34 | The bytes of a short, placed anywhere in a buffer, read back as that short |
| Convert.IntAtGetBytes | Infrastructure/Convert.cs:10-21 | The bytes of an int, placed anywhere in a buffer, read back as that int |
| Convert.Utf8Char | Infrastructure/Convert.cs:39-40 | A character encodes to one to four bytes, and to exactly one byte, its own code, when it is ASCII |
| Convert.GetBytes | Infrastructure/Convert.cs:39-40 | The UTF-8 form of a text is at least as long as the text |
| Convert.ToString | Infrastructure/Convert.cs:36-37 | Decoding gives one character per byte |
| Convert.AsciiBytes | Infrastructure/Convert.cs:39-40 | ASCII text encodes to one byte per character |
| Convert.TextRoundTrip | Infrastructure/Convert.cs:36-40 | `ToString(GetBytes(text)) == text` for ASCII text |
| Convert.BytesRoundTrip | Infrastructure/Convert.cs:36-40 | `GetBytes(ToString(bytes)) == bytes` for ASCII bytes |
| QueryTypes.Parse | Domain/DnsMessage/QueryType.cs:16 | `Parse` keeps every 16-bit code as it is and rejects none |
| QueryTypes.NamedCodes | Domain/DnsMessage/QueryType.cs:8-16 | A=1, NS=2, CNAME=5, PTR=12, HINFO=13, MX=15, AXFR=252, Any=255; the eight codes are pairwise distinct; a type is the `Parse` of its own code |
| QueryClasses.Parse | Domain/DnsMessage/QueryClass.cs:9 | `Parse` keeps every 16-bit code as it is and rejects none |
| QueryClasses.NamedCodes | Domain/DnsMessage/QueryClass.cs:5-9 | Internet=1, and a class is the `Parse` of its own code |
| OpCodes.Parse | Domain/DnsMessage/OpCode.cs:13 | `Parse` keeps every int code as it is, including codes above 15 |
| OpCodes.NamedCodes | Domain/DnsMessage/OpCode.cs:5-13 | Query=0, InverseQuery=1, Status=2, Notify=4, Update=5, pairwise distinct; the unnamed code 3 is a valid result of `Parse` |
| RCodes.Parse | Domain/DnsMessage/RCode.cs:10 | `Parse` keeps every int code as it is and rejects none |
| RCodes.NamedCodes | Domain/DnsMessage/RCode.cs:5-10 | OK=0 and NameError=3, distinct; a code is the `Parse` of its own value |
| MessageTypes.Parse | Domain/DnsMessage/MessageType.cs:10 | `Parse(b).Code == b`: true gives Response and false gives Query |
| MessageTypes.TwoValues | Domain/DnsMessage/MessageType.cs:5-10 | Query is false, Response is true, and every message type is one of the two |
| Names.Split | Domain/DnsMessage/Question.cs:57 | `Split('.')` yields at least one part and no part contains '.'; with `Names.UnsplitSplit` this fixes the parts uniquely |
| Names.UnsplitSplit | Domain/DnsMessage/Question.cs:57 | Joining the parts of a split with '.' gives the text back |
| Names.UnsplitDotted | Domain/DnsMessage/Question.cs:38 | Labels each followed by '.' are the labels plus one empty part joined with '.' |
| Names.EncodeLabel | Domain/DnsMessage/Question.cs:59-61 | A part is written as one length byte plus its UTF-8 bytes |
| Names.EncodePartsAppend | Domain/DnsMessage/Question.cs:57-62 | Writing the parts is writing each part in turn |
| Names.EncodedLength | Domain/DnsMessage/Question.cs:57-62 | A written name is one byte longer than the UTF-8 form of its text |
| Names.Encode | Domain/DnsMessage/Question.cs:56-62 | Definition of the name loop of `GetBytes`: each '.'-separated part as a length byte and its bytes; `Names.Write` computes it, `Names.EncodedLabels` and `Names.DecodeAt` state what it gives |
| Names.Decode | Domain/DnsMessage/Question.cs:31-40 | The label loop either stops at a zero byte at or after `start` and inside the buffer, or fails with an index outside the buffer |
| Names.DecodeStep | Domain/DnsMessage/Question.cs:33-39 | One turn of the loop appends the label read with `Skip(index + 1).Take(message[index])` and a '.', then moves past the label |
| Names.PointerIsLength | Domain/DnsMessage/Record.cs:31-38 | A length byte of 0xC0 or more is a label length, not a compression pointer; the loop fails when that label runs past the end of the buffer |
| Names.Read | Domain/DnsMessage/Question.cs:29-40 | The `while` loop over the labels computes `Names.Decode` |
| Names.Write | Domain/DnsMessage/Question.cs:56-62 | The `foreach` over the parts computes `Names.Encode` |
| Names.DecodeLabels | Domain/DnsMessage/Record.cs:31-38 | Labels laid out on the wire decode to their text, each followed by '.', ending at the zero byte |
| Names.EncodedLabels | Domain/DnsMessage/Question.cs:57-62 | A valid name is written as its labels followed by the empty terminator label, and those labels dotted give the name back |
| Names.DecodeAt | Domain/DnsMessage/Question.cs:29-66 | A valid name written anywhere in a buffer reads back as itself, stopping at the last byte of its encoding |
| Questions.EqualsIsEquality | Domain/DnsMessage/Question.cs:21-27 | On two questions `Equals` is equality of name, type code and class code; it is reflexive, symmetric and transitive |
| Questions.EqualsOnlyQuestions | Domain/DnsMessage/Question.cs:21-27 | `Equals` is false for any argument that is not a Question, every Record and every CacheRecord included |
| Questions.Equals | Domain/DnsMessage/Question.cs:21-27 | `Equals(obj)` holds exactly when `obj` is a Question equal to this one |
| Questions.Fields | Domain/DnsMessage/Question.cs:42-50 | Definition of the type and class reads after the name; `Questions.Layout` states their offsets, failure and `next` |
| Questions.Decode | Domain/DnsMessage/Question.cs:29-52 | Definition of `Parse` as a function (the name, then the fields); `Questions.Parse` computes it, and `Questions.DecodeAt` and `Questions.RoundTrip` state that it inverts `Questions.Encode` |
| Questions.Encode | Domain/DnsMessage/Question.cs:54-66 | Definition of `GetBytes` as a function; `Questions.GetBytes` computes it, `Questions.EncodedLength` gives its length and `Questions.RoundTrip` its inverse |
| Questions.Layout | Domain/DnsMessage/Question.cs:42-50 | After the terminator at `index` the reads succeed exactly when five bytes are there; type and class are the big-endian shorts at index+1 and index+3, and `next == index + 5` |
| Questions.Parse | Domain/DnsMessage/Question.cs:29-52 | The name loop followed by the two reads computes `Questions.Decode` |
| Questions.GetBytes | Domain/DnsMessage/Question.cs:54-66 | The `foreach` over the name parts followed by the type and class bytes computes `Questions.Encode` |
| Questions.EncodedLength | Domain/DnsMessage/Question.cs:54-66 | A written question is the sum of 1+|part| over the name parts, plus 4 |
| Questions.DecodeAt | Domain/DnsMessage/Question.cs:29-66 | A well-formed question written anywhere in a buffer reads back as itself, with `next` just past it |
| Questions.RoundTrip | Domain/DnsMessage/Question.cs:29-66 | `Parse(p + GetBytes(q) + s, |p|)` gives `q` and `next == |p| + |GetBytes(q)|` |
| Records.Layout | Domain/DnsMessage/Record.cs:40-58 | After the terminator at `index` the reads succeed exactly when eleven bytes are there; type, class, TTL and DataLength sit at fixed offsets; `Data` is at most DataLength bytes from index+11, cut short by the buffer end; DataLength is kept as read; `next == index + 11 + DataLength` |
| Records.Fields | Domain/DnsMessage/Record.cs:40-58 | Definition of the reads after the name; `Records.ReadFields` computes it and `Records.Layout` states its offsets, failure, `Data` clamping and `next` |
| Records.Decode | Domain/DnsMessage/Record.cs:27-60 | Definition of `Parse` as a function; `Records.Parse` computes it, and `Records.DecodeAt` and `Records.RoundTrip` state that it inverts `Records.Encode` |
| Records.Encode | Domain/DnsMessage/Record.cs:62-77 | Definition of `GetBytes` as a function; `Records.GetBytes` computes it and `Records.RoundTrip` gives its inverse |
| Records.Parse | Domain/DnsMessage/Record.cs:27-38 | The name loop followed by the field reads computes `Records.Decode` |
| Records.ReadFields | Domain/DnsMessage/Record.cs:40-59 | The reads at fixed offsets after the name compute `Records.Fields` |
| Records.FixedFields | Domain/DnsMessage/Record.cs:71-74 | Type, class, TTL and DataLength take ten bytes |
| Records.GetBytes | Domain/DnsMessage/Record.cs:62-77 | The `foreach` over the name parts, then the fixed fields and `Data` verbatim, computes `Records.Encode` |
| Records.DecodeAt | Domain/DnsMessage/Record.cs:27-77 | A well-formed record written anywhere in a buffer reads back as itself, with `next` just past it |
| Records.RoundTrip | Domain/DnsMessage/Record.cs:27-77 | `Parse(p + GetBytes(r) + s, |p|)` gives `r` and `next == |p| + |GetBytes(r)|` when DataLength counts Data |
| Messages.Create | Domain/DnsMessage/DnsMessage.cs:28-45 | The field constructor keeps id, QR, OpCode, AA and the two lists; clears TC, RD and RA; sets RCode to OK; casts the two list sizes to the first two counts; leaves no authorities or additionals, with zero counts |
| Messages.Header | Domain/DnsMessage/DnsMessage.cs:81-92 | The header is twelve bytes |
| Messages.ThirdByte | Domain/DnsMessage/DnsMessage.cs:82-86 | Definition of the third header byte, cast to eight bits; `Messages.ThirdOpCode` and `Messages.ThirdFlags` state what reads back from it |
| Messages.FourthByte | Domain/DnsMessage/DnsMessage.cs:87-88 | Definition of the fourth header byte; `Messages.FourthDecodes` states what reads back from it |
| Messages.Encode | Domain/DnsMessage/DnsMessage.cs:78-102 | Definition of `GetBytes` as a function; `Messages.GetBytes` computes it and `Messages.DecodeEncode` and `Messages.DecodeAsWrittenEncode` give its inverses |
| Messages.DecodeAsWritten | Domain/DnsMessage/DnsMessage.cs:47-76 | Definition of the decoder as written, flag tests `== 1` included; `Messages.FromBytes` computes it and `Messages.Decoded`, `Messages.AsWrittenClears` and `Messages.DecodeAsWrittenEncode` state what it gives |
| Messages.Decode | Domain/DnsMessage/DnsMessage.cs:47-76 | A reference decoder the source does not contain: the decoder with each flag tested against zero; `Messages.DecodeEncode` proves it inverts `Messages.Encode`, and `Messages.AsWrittenClears` relates the decoder as written to it |
| Messages.GetBytes | Domain/DnsMessage/DnsMessage.cs:78-102 | `GetBytes` computes `Messages.Encode`: the header, then the questions, answers, authorities and additionals in order |
| Messages.WriteQuestions | Domain/DnsMessage/DnsMessage.cs:93-94 | The question loop appends every encoded question in order |
| Messages.WriteRecords | Domain/DnsMessage/DnsMessage.cs:95-100 | A record loop appends every encoded record in order |
| Messages.Items | Domain/DnsMessage/DnsMessage.cs:67-75 | Reading `count` items from a cursor gives exactly `count` items when it succeeds |
| Messages.ItemsStep | Domain/DnsMessage/DnsMessage.cs:68-69 | One loop turn adds the item read at the cursor and moves the cursor to that item's `next` |
| Messages.ItemsStop | Domain/DnsMessage/DnsMessage.cs:68-69 | A section read fails with the first item's failure |
| Messages.ReadSection | Domain/DnsMessage/DnsMessage.cs:67-75 | The `for` loop over one section computes `Messages.Section` |
| Messages.FromBytes | Domain/DnsMessage/DnsMessage.cs:47-76 | The decoder as written computes `Messages.DecodeAsWritten` |
| Messages.ShortMessage | Domain/DnsMessage/DnsMessage.cs:49-65 | Decoding fails on any buffer shorter than 12 bytes |
| Messages.Decoded | Domain/DnsMessage/DnsMessage.cs:47-76 | A decoded message has Id and the four counts from bytes 0..11 big-endian, OpCode (byte2 & 0x78) >> 3, RCode byte3 & 0x0F, each flag from its bit by the flag test used, and each list as long as its count when the count is non-negative (empty otherwise) |
| Messages.ThirdOpCode | Domain/DnsMessage/DnsMessage.cs:53-86 | OpCode bits written into the third byte read back as the OpCode, when it is in 0..15 |
| Messages.ThirdFlags | Domain/DnsMessage/DnsMessage.cs:52-86 | The QR, AA, TC and RD bits of the third byte are non-zero exactly when the flags are set, and RD alone also passes the test `== 1` |
| Messages.FourthDecodes | Domain/DnsMessage/DnsMessage.cs:58-88 | RCode and RA read back from the fourth byte, when RCode is in 0..15 |
| Messages.FlagAsWrittenNever | Domain/DnsMessage/DnsMessage.cs:52-59 | A masked QR, AA, TC or RA bit is never equal to 1; for the RD bit, `== 1` and `!= 0` agree |
| Messages.HeaderAt | Domain/DnsMessage/DnsMessage.cs:49-92 | A written header reads back as the Id, the two flag bytes and the four stored counts |
| Messages.ItemsAt | Domain/DnsMessage/DnsMessage.cs:67-100 | Items written back to back read back as themselves, the cursor ending just past them |
| Messages.SectionsAt | Domain/DnsMessage/DnsMessage.cs:67-100 | The four sections written back to back from offset 12 read back as themselves |
| Messages.DecodeWithEncoded | Domain/DnsMessage/DnsMessage.cs:47-102 | A message that meets `RoundTrips`, followed by any bytes, decodes to its Id, its two flag bytes, its counts and its lists, under either flag test |
| Messages.AsWrittenClears | Domain/DnsMessage/DnsMessage.cs:52-59 | The decoder as written fails exactly when the reference decoder fails, and otherwise gives its result with QR Query and AA, TC and RA false |
| Messages.DecodeEncode | Domain/DnsMessage/DnsMessage.cs:47-102 | The reference decoder gives back every message that meets `RoundTrips` (OpCode and RCode in 0..15, counts equal to list sizes, well-formed questions and records), whatever follows it |
| Messages.DecodeAsWrittenEncode | Domain/DnsMessage/DnsMessage.cs:47-102 | The decoder as written gives back such a message with QR, AA, TC and RA cleared; RD, OpCode and RCode survive |
| Messages.ResponseReadAsQuery | Domain/DnsMessage/DnsMessage.cs:47-102 | Every response that `GetBytes` writes with OpCode and RCode in 0..15, counts equal to list sizes and well-formed questions and records, whatever follows it, is read back as a query by the decoder as written, identical otherwise except AA, TC and RA cleared; the reference decoder reads it back as itself |
| CacheRecords.Create | Domain/CacheRecord.cs:10-14 | The entry keeps the record, and its due time is `now` plus the record's TTL |
| CacheRecords.DueTimeOrder | Domain/CacheRecord.cs:13 | A zero TTL gives `now`, a negative TTL a due time before `now`, a positive one after; at the same instant a longer TTL gives a later due time |
| Server.Stamped | App/DnsServer.cs:155-157 | The learned entries are one per record, in order, each with the record and the due time `now + TTL` |
| Server.SourceMatch | App/DnsServer.cs:113 | Definition of the source's match, `question.Equals(cacheRecord)`; `Server.SourceMatchNever` proves it never holds |
| Server.Hits | App/DnsServer.cs:111-116 | Definition of what the inner loop collects for one question under any match; `Server.HitsAre` states it |
| Server.Lookup | App/DnsServer.cs:105-121 | Definition of the outer loop under any match; `Server.DnsServer.TryGetAnswerFromCache` computes it, and `Server.LookupFinds`, `Server.LookupAnswers` and `Server.LookupStops` state it |
| Server.CacheAnswer | App/DnsServer.cs:122-123 | Definition of the answer built from the cache with the field constructor; `Messages.Create` states its fields |
| Server.Learned | App/DnsServer.cs:146-148 | Definition of the reply's records in the order `SaveToCache` adds them; `Server.LearnedEntries` states their count and origin |
| Server.Placeholder | App/DnsServer.cs:152-153 | Definition of the placeholder record `SaveToCache` builds and discards; `Server.DnsServer.SaveToCache` shows it never enters the cache |
| Server.Upstream | App/DnsServer.cs:128-142 | Definition of the upstream step: the query re-encoded, exchanged, and the reply decoded as written; `Server.UpstreamLearns` states what it gives for a well-formed reply |
| Server.DnsServer.constructor | App/DnsServer.cs:18-30 | The server keeps the online flag, and the cache is the loaded list, or empty when nothing was loaded |
| Server.DnsServer.TryGetAnswerFromCache | App/DnsServer.cs:103-126 | The nested loops report a hit exactly when `Server.Lookup` finds every question. On a hit the answer is the field constructor applied to the query's Id, Response, the query's OpCode, AA false, the query's questions and the looked-up records. On a miss there is no answer. The cache is not changed |
| Server.DnsServer.SaveToCache | App/DnsServer.cs:144-160 | The cache becomes the old cache followed by the stamped answers, authorities and additionals of the reply; the discarded placeholders never enter it |
| Server.DnsServer.GetAnswerFromDns | App/DnsServer.cs:128-142 | The result is the upstream exchange of the re-encoded query, decoded as written. On success the reply's records are learned; on failure the cache is unchanged |
| Server.DnsServer.GetAnswer | App/DnsServer.cs:96-101 | A cache hit answers without the upstream and leaves the cache unchanged; a miss while offline gives no answer and leaves the cache unchanged; a miss while online gives the upstream result and its learning. On every path the old cache is a prefix of the new one: entries are only ever appended |
| Server.LookupStops | App/DnsServer.cs:106-121 | The lookup fails as soon as one question has no match |
| Server.HitsAre | App/DnsServer.cs:111-116 | A record is among a question's hits exactly when a matching entry holds it; the hits are empty exactly when no entry matches; there are no more hits than entries |
| Server.LookupFinds | App/DnsServer.cs:105-121 | The lookup succeeds exactly when every question has a matching entry |
| Server.LookupAnswers | App/DnsServer.cs:105-123 | On success, the answers are each question's hits in question order, each question's hits in cache order |
| Server.SourceMatchNever | App/DnsServer.cs:113 | The source's match, `question.Equals(cacheRecord)`, never holds |
| Server.AsWrittenMisses | App/DnsServer.cs:103-125 | As written, every query with at least one question misses the cache, and a query with no questions hits with no answers |
| Server.LearnedEntries | App/DnsServer.cs:144-160 | Learning adds exactly |Answers|+|Authorities|+|Additionals| entries, and every entry holds a record from the reply's Answers, Authorities or Additionals, never a placeholder built from a question |
| Server.UpstreamLearns | App/DnsServer.cs:128-142 | When the upstream answers with the bytes of a message that meets `RoundTrips`, followed by any padding, the decoded reply holds exactly that message's records, so those are the records learned |

## Left out

- Sockets: the listen and send sockets, `Bind`, `Connect`, the 2000 ms receive timeout, `Run` with its `SocketException` exit, `HandleRequest`, `Dispose` and the `CancelKeyPress` hook. These are I/O and process control. The upstream round trip is the parameter `exchange`, which takes the bytes `GetBytes` writes and returns the reply bytes or a failure.
- The fixed 1024-byte receive buffer: the decoder works on any byte sequence, and `Server.UpstreamLearns` allows any padding after the reply.
- JSON persistence: `UpdateCache`, and the `cache.txt` load in the constructor. These are library calls whose behaviour is not visible here. The constructor takes what the load produced as `loaded`, with `None` for a failed load.
- Console output: every `Console.WriteLine` is dropped.
- The clock: `DateTime.Now` is the integer parameter `now`, in seconds. `SaveToCache` takes a single `now` for all the entries it creates. `AddSeconds` on a `double`, and its range limit, are not modelled.
- Convert.ToString: bytes at or above 0x80 each decode to U+FFFD. Multi-byte UTF-8 sequences are not decoded, because names are restricted to ASCII labels.
- Convert.GetBytes: the UTF-8 encoder does not model unpaired surrogates, because Dafny's `char` holds only Unicode scalar values.
- Exceptions are `Failure` values: out-of-range indices, `First()` on an empty sequence, and `BitConverter` given too few bytes.
- The host byte order is a parameter of the `BitConverter` functions. The codec uses `Convert.Host`, which is little-endian, and the lemmas show the results do not depend on it.
- Behaviour the code does not have is not added: name compression (section 4.1.4 of RFC 1035), a negative cache, expiry by `DueTime`, and forwarding the query's original bytes.
- `Questions.Object` stands in for the C# `object` passed to `Equals`. It has only the three cases the code passes: Question, Record and CacheRecord.
