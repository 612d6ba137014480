/** Domain/DnsMessage/Question.cs: an entry of the question section, in the
    layout of section 4.1.2 of RFC 1035: the name, then QTYPE and QCLASS. */
module Questions {
  import opened Wrappers
  import opened Linq
  import opened Convert
  import Names
  import QueryTypes
  import QueryClasses
  import Records
  import CacheRecords

  /** Every field is readonly and set once by the constructor. */
  datatype Question = Question(
    Name: string,
    Type: QueryTypes.QueryType,
    QueryClass: QueryClasses.QueryClass)

  /** The `object` that `Equals` is handed: the server passes questions,
      records and cache records to it. */
  datatype Object =
    | QuestionObject(question: Question)
    | RecordObject(record: Records.Record)
    | CacheRecordObject(cacheRecord: CacheRecords.CacheRecord)

  /** `Question.Equals(object)`: `obj is Question` with the same name and
      the same type and class codes, which is the same question. */
  predicate Equals(q: Question, obj: Object): (equal: bool)
    ensures equal <==> obj == QuestionObject(q)
  {
    && obj.QuestionObject?
    && q.Name == obj.question.Name
    && q.Type.Code == obj.question.Type.Code
    && q.QueryClass.Code == obj.question.QueryClass.Code
  }

  /** On questions `Equals` is value equality, so it is reflexive, symmetric
      and transitive. */
  lemma EqualsIsEquality(q: Question, p: Question, o: Question)
    ensures Equals(q, QuestionObject(p)) <==> q == p
    ensures Equals(q, QuestionObject(q))
    ensures Equals(q, QuestionObject(p)) ==> Equals(p, QuestionObject(q))
    ensures Equals(q, QuestionObject(p)) && Equals(p, QuestionObject(o)) ==> Equals(q, QuestionObject(o))
  {
  }

  /** Anything but a question is unequal to every question: the type test
      fails before any field is compared. */
  lemma EqualsOnlyQuestions(q: Question, obj: Object)
    ensures !obj.QuestionObject? ==> !Equals(q, obj)
    ensures forall r :: !Equals(q, RecordObject(r))
    ensures forall c :: !Equals(q, CacheRecordObject(c))
  {
  }

  /** The reads of `Question.Parse` that follow the name, whose text is
      `name` and whose terminator is at `index`: QTYPE and QCLASS, and
      `next` is `index + 5`. Each `Skip(..).Take(2)` read is written as the
      two bytes it denotes. */
  function Fields(message: seq<Byte>, name: string, index: nat): Result<(Question, int)> {
    var typeCode :- ShortAt(message, index + 1);
    var queryClass :- ShortAt(message, index + 3);
    Success((Question(name, QueryTypes.Parse(typeCode), QueryClasses.Parse(queryClass)), index + 1 + 4))
  }

  /** `Question.Parse(message, start, out next)` as a function: the question
      and `next`, or the exception. */
  function Decode(message: seq<Byte>, start: int): Result<(Question, int)> {
    var name :- Names.Decode(message, start);
    Fields(message, name.0, name.1)
  }

  /** `Question.Parse`, as written: the name loop, then two reads. */
  method Parse(message: seq<Byte>, start: int) returns (r: Result<(Question, int)>)
    ensures r == Decode(message, start)
  {
    var name :- Names.Read(message, start);
    var index := name.1;
    assert Decode(message, start) == Fields(message, name.0, index);
    ShortAtIsToShort(message, index + 1);
    var typeCode :- ToShort(Take(Skip(message, index + 1), 2));
    ShortAtIsToShort(message, index + 3);
    var queryClass :- ToShort(Take(Skip(message, index + 3), 2));
    var next := index + 1 + 4;
    return Success((Question(name.0, QueryTypes.Parse(typeCode), QueryClasses.Parse(queryClass)), next));
  }

  /** `Question.GetBytes` as a function: the name, then QTYPE and QCLASS. */
  function Encode(q: Question): seq<Byte> {
    Names.Encode(q.Name) + GetBytesShort(q.Type.Code) + GetBytesShort(q.QueryClass.Code)
  }

  /** `Question.GetBytes`, as written: the name loop, then the two codes. */
  method GetBytes(q: Question) returns (bytes: seq<Byte>)
    ensures bytes == Encode(q)
  {
    bytes := Names.Write(q.Name);
    bytes := bytes + GetBytesShort(q.Type.Code);
    bytes := bytes + GetBytesShort(q.QueryClass.Code);
  }

  /** The byte layout `Fields` reads after a name whose terminator is at
      `index`: it succeeds exactly when the four bytes fit after the
      terminator, QTYPE and QCLASS are big-endian at `index + 1` and
      `index + 3`, and `next` is `index + 5`. */
  lemma Layout(m: seq<Byte>, name: string, index: nat)
    ensures Fields(m, name, index).Success? <==> index + 5 <= |m|
    ensures var r := Fields(m, name, index);
      r.Success? ==>
        && r.value.0.Name == name
        && r.value.0.Type.Code == BigEndian16(m[index + 1], m[index + 2])
        && r.value.0.QueryClass.Code == BigEndian16(m[index + 3], m[index + 4])
        && r.value.1 == index + 5
  {
  }

  /** `GetBytes` is one length byte and the bytes of each '.'-separated part
      of the name, then four bytes of codes. */
  lemma EncodedLength(q: Question)
    ensures |Encode(q)| == |Names.EncodeParts(Names.Split(q.Name))| + 4
    ensures |Encode(q)| == |Convert.GetBytes(q.Name)| + 5
  {
    Names.EncodedLength(q.Name);
  }

  /** The names `Decode` gives back unchanged. */
  predicate WellFormed(q: Question) {
    Names.ValidName(q.Name)
  }

  /** The two codes of `q`, in their wire form, sit right after a name
      terminator at `index`. */
  ghost predicate FieldsAt(m: seq<Byte>, index: nat, q: Question) {
    && At(m, index + 1, GetBytesShort(q.Type.Code))
    && At(m, index + 3, GetBytesShort(q.QueryClass.Code))
  }

  /** Codes laid out after a terminator read back as the question they
      encode, and `next` is the first byte after them. */
  lemma FieldsFrom(m: seq<Byte>, index: nat, q: Question)
    requires FieldsAt(m, index, q)
    ensures Fields(m, q.Name, index) == Success((q, index + 5))
  {
    ShortAtGetBytes(m, index + 1, q.Type.Code);
    ShortAtGetBytes(m, index + 3, q.QueryClass.Code);
    QueryTypes.NamedCodes(q.Type);
    QueryClasses.NamedCodes(q.QueryClass);
  }

  /** The encoding of a question in a message is the encoding of its name,
      then its codes where `FieldsAt` expects them after the terminator at
      `index`. */
  lemma EncodedParts(m: seq<Byte>, at: nat, q: Question, index: int)
    requires At(m, at, Encode(q))
    requires index == at + |Names.Encode(q.Name)| - 1
    ensures at <= index && index + 5 == at + |Encode(q)|
    ensures At(m, at, Names.Encode(q.Name))
    ensures FieldsAt(m, index, q)
  {
    var name := Names.Encode(q.Name);
    var typeCode := GetBytesShort(q.Type.Code);
    var queryClass := GetBytesShort(q.QueryClass.Code);
    Names.EncodedLength(q.Name);
    AtSplit(m, at, name + typeCode, queryClass);
    AtSplit(m, at, name, typeCode);
  }

  /** `Decode` is the name read followed by `Fields`. */
  lemma NameThenFields(m: seq<Byte>, start: int, q: Question, index: nat)
    requires Names.Decode(m, start) == Success((q.Name, index))
    requires FieldsAt(m, index, q)
    ensures Decode(m, start) == Success((q, index + 5))
  {
    FieldsFrom(m, index, q);
  }

  /** Where the encoding of a question with a valid name sits, its name
      reads back up to the terminator at `index`, its codes follow, and
      `next` is the first byte after them. */
  lemma EncodingAt(m: seq<Byte>, at: nat, q: Question, index: int)
    requires WellFormed(q) && At(m, at, Encode(q))
    requires index == at + |Names.Encode(q.Name)| - 1
    ensures at <= index && index + 5 == at + |Encode(q)|
    ensures Names.Decode(m, at) == Success((q.Name, index))
    ensures FieldsAt(m, index, q)
  {
    EncodedParts(m, at, q, index);
    Names.DecodeAt(m, at, q.Name);
  }

  /** Round trip at any offset: wherever the encoding of a question with a
      valid name sits in a message, it decodes to the question, and `next`
      is the first byte after it. */
  lemma DecodeAt(m: seq<Byte>, at: nat, q: Question)
    requires WellFormed(q) && At(m, at, Encode(q))
    ensures Decode(m, at) == Success((q, at + |Encode(q)|))
  {
    var index := at + |Names.Encode(q.Name)| - 1;
    EncodingAt(m, at, q, index);
    NameThenFields(m, at, q, index);
  }

  /** `Decode(p + GetBytes(q) + s, |p|)` gives `q` back, with `next` right
      after its bytes. */
  lemma RoundTrip(p: seq<Byte>, q: Question, s: seq<Byte>)
    requires WellFormed(q)
    ensures Decode(p + Encode(q) + s, |p|) == Success((q, |p| + |Encode(q)|))
  {
    Placed(p, Encode(q), s);
    DecodeAt(p + Encode(q) + s, |p|, q);
  }
}
