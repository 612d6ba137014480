/** Domain/DnsMessage/Record.cs: a resource record in the layout of section
    4.1.3 of RFC 1035. After the name come TYPE, CLASS, a 32-bit TTL,
    RDLENGTH and RDATA. `DataLength` is kept as read, apart from `Data`. */
module Records {
  import opened Wrappers
  import opened Linq
  import opened Convert
  import Names
  import QueryTypes
  import QueryClasses

  /** Every field is readonly and set once by the constructor. */
  datatype Record = Record(
    Name: string,
    Type: QueryTypes.QueryType,
    QueryClass: QueryClasses.QueryClass,
    TimeToLive: Int32,
    DataLength: Int16,
    Data: seq<Byte>)

  /** The reads of `Record.Parse` that follow the name, whose text is
      `name` and whose terminator is at `index`: TYPE, CLASS, TTL and
      RDLENGTH at fixed offsets, then at most `DataLength` bytes of `Data`
      from `index + 11`; `next` is `index + 11 + DataLength` in every case.
      Each `Skip(..).Take(..)` read is written as the slice it denotes. */
  function Fields(message: seq<Byte>, name: string, index: nat): Result<(Record, int)> {
    var typeCode :- ShortAt(message, index + 1);
    var queryClass :- ShortAt(message, index + 3);
    var timeToLive :- IntAt(message, index + 5);
    var dataLength :- ShortAt(message, index + 9);
    var data := Clipped(message, index + 11, dataLength);
    var record := Record(name, QueryTypes.Parse(typeCode), QueryClasses.Parse(queryClass),
                         timeToLive, dataLength, data);
    Success((record, index + 1 + 10 + dataLength))
  }

  /** `Record.Parse(message, start, out next)` as a function: the record and
      `next`, or the exception. */
  function Decode(message: seq<Byte>, start: int): Result<(Record, int)> {
    var name :- Names.Decode(message, start);
    Fields(message, name.0, name.1)
  }

  /** `Record.Parse`, as written: the name loop, then the reads at fixed
      offsets. */
  method Parse(message: seq<Byte>, start: int) returns (r: Result<(Record, int)>)
    ensures r == Decode(message, start)
  {
    var name :- Names.Read(message, start);
    r := ReadFields(message, name.0, name.1);
  }

  /** The reads of `Record.Parse` after the name loop, each a
      `Skip(..).Take(..)` at a fixed offset from the terminator. */
  method ReadFields(message: seq<Byte>, name: string, index: nat) returns (r: Result<(Record, int)>)
    ensures r == Fields(message, name, index)
  {
    ShortAtIsToShort(message, index + 1);
    var typeCode :- ToShort(Take(Skip(message, index + 1), 2));
    ShortAtIsToShort(message, index + 3);
    var queryClass :- ToShort(Take(Skip(message, index + 3), 2));
    IntAtIsToInt(message, index + 5);
    var timeToLive :- ToInt(Take(Skip(message, index + 5), 4));
    ShortAtIsToShort(message, index + 9);
    var dataLength :- ToShort(Take(Skip(message, index + 9), 2));
    ClippedIsSkipTake(message, index + 11, dataLength);
    var data := Take(Skip(message, index + 11), dataLength);
    var next := index + 1 + 10 + dataLength;
    var record := Record(name, QueryTypes.Parse(typeCode), QueryClasses.Parse(queryClass),
                         timeToLive, dataLength, data);
    return Success((record, next));
  }

  /** TYPE, CLASS, TTL and the stored `DataLength`, big-endian. */
  function FixedFields(r: Record): (bytes: seq<Byte>)
    ensures |bytes| == 10
  {
    GetBytesShort(r.Type.Code) + GetBytesShort(r.QueryClass.Code)
      + GetBytesInt(r.TimeToLive) + GetBytesShort(r.DataLength)
  }

  /** `Record.GetBytes` as a function: the name, the fixed fields, then `Data`
      verbatim. */
  function Encode(r: Record): seq<Byte> {
    Names.Encode(r.Name) + FixedFields(r) + r.Data
  }

  /** `Record.GetBytes`, as written: the name loop, then `AddRange` of each
      field. */
  method GetBytes(r: Record) returns (bytes: seq<Byte>)
    ensures bytes == Encode(r)
  {
    bytes := Names.Write(r.Name);
    bytes := bytes + GetBytesShort(r.Type.Code);
    bytes := bytes + GetBytesShort(r.QueryClass.Code);
    bytes := bytes + GetBytesInt(r.TimeToLive);
    bytes := bytes + GetBytesShort(r.DataLength);
    bytes := bytes + r.Data;
  }

  /** The byte layout `Fields` reads after a name whose terminator is at
      `index`. It succeeds exactly when the ten bytes of fixed fields fit
      after the terminator. The fields are then big-endian at `index + 1`,
      `+ 3`, `+ 5` and `+ 9`. `DataLength` is the value read, and `next` is
      `index + 11 + DataLength`. `Data` is the bytes from `index + 11` up to
      `next`, cut short at the end of the message; it is empty when
      `DataLength` is not positive. So `Data` holds `DataLength` bytes exactly
      when `next` is within the message. */
  lemma Layout(m: seq<Byte>, name: string, index: nat)
    ensures Fields(m, name, index).Success? <==> index + 11 <= |m|
    ensures var r := Fields(m, name, index);
      r.Success? ==>
        var record := r.value.0;
        var next := r.value.1;
        && record.Name == name
        && record.Type.Code == BigEndian16(m[index + 1], m[index + 2])
        && record.QueryClass.Code == BigEndian16(m[index + 3], m[index + 4])
        && record.TimeToLive == BigEndian32(m[index + 5], m[index + 6], m[index + 7], m[index + 8])
        && record.DataLength == BigEndian16(m[index + 9], m[index + 10])
        && next == index + 11 + record.DataLength
        && record.Data == (if record.DataLength <= 0 then []
                           else if next <= |m| then m[index + 11..next]
                           else m[index + 11..])
        && (record.DataLength >= 0 ==> (|record.Data| == record.DataLength <==> next <= |m|))
  {
  }

  /** The records `Decode` gives back unchanged: a valid name and a
      `DataLength` that counts `Data`. */
  predicate WellFormed(r: Record) {
    Names.ValidName(r.Name) && r.DataLength == |r.Data|
  }

  /** The fields of `r`, each in its wire form, sit right after a name
      terminator at `index`. */
  ghost predicate FieldsAt(m: seq<Byte>, index: nat, r: Record) {
    && At(m, index + 1, GetBytesShort(r.Type.Code))
    && At(m, index + 3, GetBytesShort(r.QueryClass.Code))
    && At(m, index + 5, GetBytesInt(r.TimeToLive))
    && At(m, index + 9, GetBytesShort(r.DataLength))
    && At(m, index + 11, r.Data)
  }

  /** Fields laid out after a terminator read back as the record they
      encode, and `next` is the first byte after them. */
  lemma FieldsFrom(m: seq<Byte>, index: nat, r: Record)
    requires FieldsAt(m, index, r) && r.DataLength == |r.Data|
    ensures Fields(m, r.Name, index) == Success((r, index + 11 + |r.Data|))
  {
    ShortAtGetBytes(m, index + 1, r.Type.Code);
    ShortAtGetBytes(m, index + 3, r.QueryClass.Code);
    IntAtGetBytes(m, index + 5, r.TimeToLive);
    ShortAtGetBytes(m, index + 9, r.DataLength);
    AtSlice(m, index + 11, r.Data);
    QueryTypes.NamedCodes(r.Type);
    QueryClasses.NamedCodes(r.QueryClass);
  }

  /** `Decode` is the name read followed by `Fields`. */
  lemma NameThenFields(m: seq<Byte>, start: int, r: Record, index: nat)
    requires Names.Decode(m, start) == Success((r.Name, index))
    requires FieldsAt(m, index, r) && r.DataLength == |r.Data|
    ensures Decode(m, start) == Success((r, index + 11 + |r.Data|))
  {
    FieldsFrom(m, index, r);
  }

  /** The fixed fields and `Data` written at `at` are where `FieldsAt`
      expects them after a terminator at `at - 1`. */
  lemma FixedFieldsAt(m: seq<Byte>, at: nat, r: Record)
    requires 1 <= at && At(m, at, FixedFields(r) + r.Data)
    ensures FieldsAt(m, at - 1, r)
  {
    var typeCode := GetBytesShort(r.Type.Code);
    var queryClass := GetBytesShort(r.QueryClass.Code);
    var timeToLive := GetBytesInt(r.TimeToLive);
    var dataLength := GetBytesShort(r.DataLength);
    GetBytesShortIsBigEndian(Host, r.Type.Code);
    GetBytesShortIsBigEndian(Host, r.QueryClass.Code);
    GetBytesIntIsBigEndian(Host, r.TimeToLive);
    GetBytesShortIsBigEndian(Host, r.DataLength);
    AtSplit(m, at, FixedFields(r), r.Data);
    AtSplit(m, at, typeCode + queryClass + timeToLive, dataLength);
    AtSplit(m, at, typeCode + queryClass, timeToLive);
    AtSplit(m, at, typeCode, queryClass);
  }

  /** The encoding of a record in a message is the encoding of its name,
      then its fields where `FieldsAt` expects them after the terminator at
      `index`. */
  lemma EncodedParts(m: seq<Byte>, at: nat, r: Record, index: int)
    requires At(m, at, Encode(r))
    requires index == at + |Names.Encode(r.Name)| - 1
    ensures at <= index && index + 11 + |r.Data| == at + |Encode(r)|
    ensures At(m, at, Names.Encode(r.Name))
    ensures FieldsAt(m, index, r)
  {
    var name := Names.Encode(r.Name);
    Names.EncodedLength(r.Name);
    assert Encode(r) == name + (FixedFields(r) + r.Data);
    AtSplit(m, at, name, FixedFields(r) + r.Data);
    FixedFieldsAt(m, at + |name|, r);
  }

  /** Where the encoding of a well-formed record sits, its name reads back
      up to the terminator at `index`, and its fields follow. */
  lemma EncodingAt(m: seq<Byte>, at: nat, r: Record, index: int)
    requires WellFormed(r) && At(m, at, Encode(r))
    requires index == at + |Names.Encode(r.Name)| - 1
    ensures at <= index && index + 11 + |r.Data| == at + |Encode(r)|
    ensures Names.Decode(m, at) == Success((r.Name, index))
    ensures FieldsAt(m, index, r)
  {
    EncodedParts(m, at, r, index);
    Names.DecodeAt(m, at, r.Name);
  }

  /** Round trip at any offset: wherever the encoding of a well-formed
      record sits in a message, it decodes to the record, and `next` is the
      first byte after it. */
  lemma DecodeAt(m: seq<Byte>, at: nat, r: Record)
    requires WellFormed(r) && At(m, at, Encode(r))
    ensures Decode(m, at) == Success((r, at + |Encode(r)|))
  {
    var index := at + |Names.Encode(r.Name)| - 1;
    EncodingAt(m, at, r, index);
    NameThenFields(m, at, r, index);
  }

  /** `Decode(p + GetBytes(r) + s, |p|)` gives a well-formed `r` back, with
      `next` right after its bytes. */
  lemma RoundTrip(p: seq<Byte>, r: Record, s: seq<Byte>)
    requires WellFormed(r)
    ensures Decode(p + Encode(r) + s, |p|) == Success((r, |p| + |Encode(r)|))
  {
    var message := p + Encode(r) + s;
    Placed(p, Encode(r), s);
    DecodeAt(message, |p|, r);
  }
}
