/** Domain/DnsMessage/DnsMessage.cs: a whole message in the layout of section
    4.1 of RFC 1035. A 12-byte header (section 4.1.1), then the question,
    answer, authority and additional sections back to back. */
module Messages {
  import opened Wrappers
  import opened Linq
  import opened Convert
  import MessageTypes
  import OpCodes
  import RCodes
  import Questions
  import Records

  /** Every field is readonly. The four counts are kept as they were read or
      given, apart from the lists they count. */
  datatype DnsMessage = DnsMessage(
    Id: Int16,
    QR: MessageTypes.MessageType,
    OpCode: OpCodes.OpCode,
    AuthoritativeAnswer: bool,
    Truncated: bool,
    RecursionDesired: bool,
    RecursionAvailable: bool,
    RCode: RCodes.RCode,
    QuestionCount: Int16,
    AnswerCount: Int16,
    AuthorityCount: Int16,
    AdditionalCount: Int16,
    Questions: seq<Questions.Question>,
    Answers: seq<Records.Record>,
    Authorities: seq<Records.Record>,
    Additionals: seq<Records.Record>)

  // ----- The field constructor -----

  /** `new DnsMessage(id, qr, opCode, authoritativeAnswer, questions,
      answers)`: TC, RD and RA cleared, RCode OK, the first two counts cast
      from the list sizes, no authorities and no additionals. */
  function Create(id: Int16, qr: MessageTypes.MessageType, opCode: OpCodes.OpCode,
                  authoritativeAnswer: bool, questions: seq<Questions.Question>,
                  answers: seq<Records.Record>): (m: DnsMessage)
    ensures m.Id == id && m.QR == qr && m.OpCode == opCode
    ensures m.AuthoritativeAnswer == authoritativeAnswer
    ensures !m.Truncated && !m.RecursionDesired && !m.RecursionAvailable && m.RCode == RCodes.OK
    ensures m.Questions == questions && m.Answers == answers
    ensures m.Authorities == [] && m.Additionals == []
    ensures m.AuthorityCount == 0 && m.AdditionalCount == 0
    ensures |questions| < 0x8000 ==> m.QuestionCount == |questions|
    ensures |answers| < 0x8000 ==> m.AnswerCount == |answers|
    ensures (m.QuestionCount - |questions|) % 0x1_0000 == 0
    ensures (m.AnswerCount - |answers|) % 0x1_0000 == 0
  {
    DnsMessage(id, qr, opCode, authoritativeAnswer, false, false, false, RCodes.OK,
               WrapInt16(|questions|), WrapInt16(|answers|), 0, 0,
               questions, answers, [], [])
  }

  /** Every count is the size of the list it counts. */
  predicate Counted(m: DnsMessage) {
    && m.QuestionCount == |m.Questions|
    && m.AnswerCount == |m.Answers|
    && m.AuthorityCount == |m.Authorities|
    && m.AdditionalCount == |m.Additionals|
  }

  // ----- The header bytes -----

  /** A flag at the bit of `mask`, as in `flag ? 1 << 7 : 0 << 7`. */
  function Flag(on: bool, mask: bv8): bv8 {
    if on then mask else 0
  }

  /** The bits `QR << 7 | OpCode << 3 | AA << 2 | TC << 1 | RD` on eight
      bits, with `opCode` the low bits of `OpCode` that remain there. */
  function ThirdOf(qr: bool, opCode: bv8, aa: bool, tc: bool, rd: bool): bv8 {
    Flag(qr, 0x80) | (opCode << 3) | Flag(aa, 0x04) | Flag(tc, 0x02) | Flag(rd, 0x01)
  }

  /** The third byte `GetBytes` writes: the cast to `byte` keeps the low
      eight bits, and of `OpCode << 3` only the low five bits of `OpCode`
      reach them. */
  function ThirdByte(m: DnsMessage): Byte {
    ThirdOf(m.QR.Code, (m.OpCode.Code % 0x20) as bv8, m.AuthoritativeAnswer,
            m.Truncated, m.RecursionDesired) as int
  }

  /** The fourth byte: the low eight bits of `RA << 7 | RCode`. */
  function FourthByte(m: DnsMessage): Byte {
    (Flag(m.RecursionAvailable, 0x80) | (m.RCode.Code % 0x100) as bv8) as int
  }

  /** `b & mask`, as the decoder computes it on a byte. */
  function Masked(b: Byte, mask: bv8): int {
    (b as bv8 & mask) as int
  }

  /** `(b & 0b0111_1000) >> 3`. */
  function OpCodeBits(b: Byte): int {
    ((b as bv8 & 0x78) >> 3) as int
  }

  /** The 12 header bytes `GetBytes` writes: `Id`, the two flag bytes, then
      the four stored counts, each big-endian. */
  function Header(m: DnsMessage): (bytes: seq<Byte>)
    ensures |bytes| == 12
  {
    GetBytesShort(m.Id) + [ThirdByte(m), FourthByte(m)]
      + GetBytesShort(m.QuestionCount) + GetBytesShort(m.AnswerCount)
      + GetBytesShort(m.AuthorityCount) + GetBytesShort(m.AdditionalCount)
  }

  // ----- Encoding -----

  /** The four sections as `GetBytes` writes them: every question, answer,
      authority and additional record, each in the order of its list. */
  function SectionBytes(m: DnsMessage): seq<Byte> {
    SelectMany(m.Questions, Questions.Encode)
      + SelectMany(m.Answers, Records.Encode)
      + SelectMany(m.Authorities, Records.Encode)
      + SelectMany(m.Additionals, Records.Encode)
  }

  /** `GetBytes` as a function: the header, then the sections. */
  function Encode(m: DnsMessage): seq<Byte> {
    Header(m) + SectionBytes(m)
  }

  /** `GetBytes`, as written: `AddRange` of the header parts, then one
      `foreach` per section. */
  method GetBytes(m: DnsMessage) returns (bytes: seq<Byte>)
    ensures bytes == Encode(m)
  {
    bytes := GetBytesShort(m.Id);
    bytes := bytes + [ThirdByte(m)];
    bytes := bytes + [FourthByte(m)];
    bytes := bytes + GetBytesShort(m.QuestionCount);
    bytes := bytes + GetBytesShort(m.AnswerCount);
    bytes := bytes + GetBytesShort(m.AuthorityCount);
    bytes := bytes + GetBytesShort(m.AdditionalCount);
    assert bytes == Header(m);
    bytes := WriteQuestions(bytes, m.Questions);
    bytes := WriteRecords(bytes, m.Answers);
    bytes := WriteRecords(bytes, m.Authorities);
    bytes := WriteRecords(bytes, m.Additionals);
    Regroup(Header(m), SelectMany(m.Questions, Questions.Encode), SelectMany(m.Answers, Records.Encode),
            SelectMany(m.Authorities, Records.Encode), SelectMany(m.Additionals, Records.Encode));
  }

  lemma Regroup<T>(a: seq<T>, b: seq<T>, c: seq<T>, d: seq<T>, e: seq<T>)
    ensures a + b + c + d + e == a + (b + c + d + e)
  {
  }

  /** `foreach (var question in Questions) bytes.AddRange(question.GetBytes())`. */
  method WriteQuestions(start: seq<Byte>, questions: seq<Questions.Question>) returns (bytes: seq<Byte>)
    ensures bytes == start + SelectMany(questions, Questions.Encode)
  {
    bytes := start;
    for i := 0 to |questions|
      invariant bytes == start + SelectMany(questions[..i], Questions.Encode)
    {
      var encoded := Questions.GetBytes(questions[i]);
      SelectManyStep(start, questions, i, Questions.Encode, encoded);
      bytes := bytes + encoded;
    }
    assert questions[..|questions|] == questions;
  }

  /** `foreach (var record in records) bytes.AddRange(record.GetBytes())`,
      the loop `GetBytes` runs for each of the three record sections. */
  method WriteRecords(start: seq<Byte>, records: seq<Records.Record>) returns (bytes: seq<Byte>)
    ensures bytes == start + SelectMany(records, Records.Encode)
  {
    bytes := start;
    for i := 0 to |records|
      invariant bytes == start + SelectMany(records[..i], Records.Encode)
    {
      var encoded := Records.GetBytes(records[i]);
      SelectManyStep(start, records, i, Records.Encode, encoded);
      bytes := bytes + encoded;
    }
    assert records[..|records|] == records;
  }

  // ----- Decoding -----

  /** A section read ahead of the items already read. */
  function Prepend<T>(items: seq<T>, r: Result<(seq<T>, int)>): Result<(seq<T>, int)> {
    match r
    case Failure(e) => Failure(e)
    case Success(v) => Success((items + v.0, v.1))
  }

  /** A helper for `ReadSection`: `+` is associative, lifted over
      `Result`. */
  lemma PrependTwice<T>(a: seq<T>, b: seq<T>, r: Result<(seq<T>, int)>)
    ensures Prepend(a, Prepend(b, r)) == Prepend(a + b, r)
  {
    if r.Success? {
      assert a + (b + r.value.0) == (a + b) + r.value.0;
    }
  }

  /** Nothing read ahead leaves a section as it is. A helper for
      `ReadSection`: `[]` is the unit of `+`, lifted over `Result`. */
  lemma PrependNothing<T>(r: Result<(seq<T>, int)>)
    ensures Prepend([], r) == r
  {
    if r.Success? {
      assert [] + r.value.0 == r.value.0;
    }
  }

  /** `count` items read back to back from `next` by `decode`, each starting
      where the previous one ended. The list and the position after it, or
      the first exception. */
  function Items<T>(decode: (seq<Byte>, int) -> Result<(T, int)>,
                    message: seq<Byte>, next: int, count: nat): (r: Result<(seq<T>, int)>)
    ensures r.Success? ==> |r.value.0| == count
    decreases count
  {
    if count == 0 then Success(([], next))
    else
      var first :- decode(message, next);
      var rest :- Items(decode, message, first.1, count - 1);
      Success(([first.0] + rest.0, rest.1))
  }

  /** A section of `count` items: a count that is zero or negative reads
      nothing, as a `for` loop up to it runs no turn. */
  function Section<T>(decode: (seq<Byte>, int) -> Result<(T, int)>,
                      message: seq<Byte>, next: int, count: int): Result<(seq<T>, int)> {
    Items(decode, message, next, if count < 0 then 0 else count)
  }

  /** Reading one more item moves it to the items read. */
  lemma ItemsStep<T>(decode: (seq<Byte>, int) -> Result<(T, int)>, message: seq<Byte>,
                     next: int, count: nat, item: (T, int), items: seq<T>)
    requires count > 0 && decode(message, next) == Success(item)
    ensures Prepend(items, Items(decode, message, next, count))
         == Prepend(items + [item.0], Items(decode, message, item.1, count - 1))
  {
    PrependTwice(items, [item.0], Items(decode, message, item.1, count - 1));
  }

  /** An item that does not read ends the section with its exception. */
  lemma ItemsStop<T>(decode: (seq<Byte>, int) -> Result<(T, int)>, message: seq<Byte>,
                     next: int, count: nat, items: seq<T>)
    requires count > 0 && decode(message, next).Failure?
    ensures Prepend(items, Items(decode, message, next, count)) == Failure(decode(message, next).error)
  {
  }

  /** Once every item is read, the section ends where the last one did. */
  lemma ItemsDone<T>(decode: (seq<Byte>, int) -> Result<(T, int)>, message: seq<Byte>,
                     next: int, items: seq<T>)
    ensures Prepend(items, Items(decode, message, next, 0)) == Success((items, next))
  {
    assert items + [] == items;
  }

  /** `for (var i = 0; i < count; i++) items.Add(Parse(message, next, out next))`,
      the loop the decoder runs for each of the four sections, with the
      parse of one question or one record as `decode`. */
  method ReadSection<T>(decode: (seq<Byte>, int) -> Result<(T, int)>,
                        message: seq<Byte>, start: int, count: Int16) returns (r: Result<(seq<T>, int)>)
    ensures r == Section(decode, message, start, count)
  {
    var turns: nat := if count < 0 then 0 else count;
    var items := [];
    var next := start;
    var i := 0;
    PrependNothing(Items(decode, message, start, turns));
    while i < count
      invariant 0 <= i <= turns
      invariant Items(decode, message, start, turns) == Prepend(items, Items(decode, message, next, turns - i))
      decreases count - i
    {
      var read := decode(message, next);
      if read.Failure? {
        ItemsStop(decode, message, next, turns - i, items);
        return Failure(read.error);
      }
      ItemsStep(decode, message, next, turns - i, read.value, items);
      items := items + [read.value.0];
      next := read.value.1;
      i := i + 1;
    }
    ItemsDone(decode, message, next, items);
    return Success((items, next));
  }

  /** The flag test the decoder writes, `(b & mask) == 1`. */
  predicate FlagAsWritten(b: Byte, mask: bv8) {
    Masked(b, mask) == 1
  }

  /** The flag test the header layout calls for: the bit of `mask` is set. */
  predicate FlagSet(b: Byte, mask: bv8) {
    Masked(b, mask) != 0
  }

  /** The message the decoder builds from the header bytes it read and the
      four sections, with `flag` as the test of each one-bit field. */
  function Assemble(flag: (Byte, bv8) -> bool, id: Int16, thirdByte: Byte, fourthByte: Byte,
                    questionCount: Int16, answerCount: Int16,
                    authorityCount: Int16, additionalCount: Int16,
                    questions: seq<Questions.Question>, answers: seq<Records.Record>,
                    authorities: seq<Records.Record>, additionals: seq<Records.Record>): DnsMessage
  {
    DnsMessage(
      id,
      MessageTypes.Parse(flag(thirdByte, 0x80)),
      OpCodes.Parse(OpCodeBits(thirdByte)),
      flag(thirdByte, 0x04),
      flag(thirdByte, 0x02),
      flag(thirdByte, 0x01),
      flag(fourthByte, 0x80),
      RCodes.Parse(Masked(fourthByte, 0x0F)),
      questionCount, answerCount, authorityCount, additionalCount,
      questions, answers, authorities, additionals)
  }

  /** `new DnsMessage(byte[] message)` as a function, with `flag` as the test
      of each one-bit field: the message, or the first exception the reads
      throw. Each `Take`/`Skip` read is written as the bytes it denotes. */
  function DecodeWith(flag: (Byte, bv8) -> bool, message: seq<Byte>): Result<DnsMessage> {
    var id :- ShortAt(message, 0);
    var thirdByte :- FirstFrom(message, 2);
    var fourthByte :- FirstFrom(message, 3);
    var questionCount :- ShortAt(message, 4);
    var answerCount :- ShortAt(message, 6);
    var authorityCount :- ShortAt(message, 8);
    var additionalCount :- ShortAt(message, 10);
    var sections :- Sections(Questions.Decode, Records.Decode, message, questionCount, answerCount, authorityCount, additionalCount);
    Success(Assemble(flag, id, thirdByte, fourthByte,
                     questionCount, answerCount, authorityCount, additionalCount,
                     sections.0, sections.1, sections.2, sections.3))
  }

  /** The four sections after the header, each read with `readQuestion`
      or `readRecord` from where the one before it ended. */
  function Sections<Q, R>(readQuestion: (seq<Byte>, int) -> Result<(Q, int)>,
                          readRecord: (seq<Byte>, int) -> Result<(R, int)>,
                          message: seq<Byte>, questionCount: Int16, answerCount: Int16,
                          authorityCount: Int16, additionalCount: Int16)
    : Result<(seq<Q>, seq<R>, seq<R>, seq<R>)>
  {
    var questions :- Section(readQuestion, message, 12, questionCount);
    var answers :- Section(readRecord, message, questions.1, answerCount);
    var authorities :- Section(readRecord, message, answers.1, authorityCount);
    var additionals :- Section(readRecord, message, authorities.1, additionalCount);
    Success((questions.0, answers.0, authorities.0, additionals.0))
  }

  /** The decoding constructor as written, each flag read as `(b & mask) == 1`. */
  function DecodeAsWritten(message: seq<Byte>): Result<DnsMessage> {
    DecodeWith(FlagAsWritten, message)
  }

  /** The decoding constructor with each flag read as the bit it names. */
  function Decode(message: seq<Byte>): Result<DnsMessage> {
    DecodeWith(FlagSet, message)
  }

  /** The decoding constructor, as written: the header reads, then one loop
      per section threading `next`. */
  method FromBytes(message: seq<Byte>) returns (r: Result<DnsMessage>)
    ensures r == DecodeAsWritten(message)
  {
    ShortAtIsToShort(message, 0);
    var id :- ToShort(Take(message, 2));
    var thirdByte :- First(Skip(message, 2));
    var fourthByte :- First(Skip(message, 3));
    ShortAtIsToShort(message, 4);
    var questionCount :- ToShort(Take(Skip(message, 4), 2));
    ShortAtIsToShort(message, 6);
    var answerCount :- ToShort(Take(Skip(message, 6), 2));
    ShortAtIsToShort(message, 8);
    var authorityCount :- ToShort(Take(Skip(message, 8), 2));
    ShortAtIsToShort(message, 10);
    var additionalCount :- ToShort(Take(Skip(message, 10), 2));
    var next := 12;
    var questions :- ReadSection(Questions.Decode, message, next, questionCount);
    next := questions.1;
    var answers :- ReadSection(Records.Decode, message, next, answerCount);
    next := answers.1;
    var authorities :- ReadSection(Records.Decode, message, next, authorityCount);
    next := authorities.1;
    var additionals :- ReadSection(Records.Decode, message, next, additionalCount);
    return Success(Assemble(FlagAsWritten, id, thirdByte, fourthByte,
                            questionCount, answerCount, authorityCount, additionalCount,
                            questions.0, answers.0, authorities.0, additionals.0));
  }

  // ----- Reading the header back -----

  /** A code below 16 fits the bits it is written to, under either cast. */
  lemma SmallCode(n: int, bound: int)
    requires 0 <= n < 0x10 && (bound == 0x20 || bound == 0x100)
    ensures n % bound == n && (n as bv8) < 0x10 && (n as bv8) as int == n
  {
  }

  lemma ByteBits(x: bv8)
    ensures (x as int) as bv8 == x
  {
  }

  /** Each field of the third byte, on eight bits, masks back out of it. */
  lemma ThirdBits(qr: bool, v: bv8, aa: bool, tc: bool, rd: bool)
    requires v < 0x10
    ensures (ThirdOf(qr, v, aa, tc, rd) & 0x78) >> 3 == v
    ensures (ThirdOf(qr, v, aa, tc, rd) & 0x80) != 0 <==> qr
    ensures (ThirdOf(qr, v, aa, tc, rd) & 0x04) != 0 <==> aa
    ensures (ThirdOf(qr, v, aa, tc, rd) & 0x02) != 0 <==> tc
    ensures (ThirdOf(qr, v, aa, tc, rd) & 0x01) != 0 <==> rd
    ensures (ThirdOf(qr, v, aa, tc, rd) & 0x01) == 1 <==> rd
  {
  }

  /** Each field of the fourth byte, on eight bits, masks back out of it. */
  lemma FourthBits(ra: bool, v: bv8)
    requires v < 0x10
    ensures (Flag(ra, 0x80) | v) & 0x0F == v
    ensures (Flag(ra, 0x80) | v) & 0x80 != 0 <==> ra
  {
  }

  /** A mask taken of a byte held as `int` is the mask of its bits. */
  lemma MaskedBits(x: bv8, mask: bv8)
    ensures Masked(x as int, mask) == (x & mask) as int
  {
    ByteBits(x);
    MaskedOf(x as int, x, mask);
  }

  lemma MaskedOf(b: Byte, x: bv8, mask: bv8)
    requires b as bv8 == x
    ensures Masked(b, mask) == (x & mask) as int
  {
  }

  /** ... and it is 0, or 1, exactly when those bits are. */
  lemma MaskedTest(x: bv8, mask: bv8)
    ensures Masked(x as int, mask) == 0 <==> x & mask == 0
    ensures Masked(x as int, mask) == 1 <==> x & mask == 1
  {
    MaskedBits(x, mask);
    SmallBits(x & mask);
  }

  lemma SmallBits(y: bv8)
    ensures (y as int == 0) == (y == 0) && (y as int == 1) == (y == 1)
  {
  }

  /** The OPCODE read out of the third byte `GetBytes` writes, when it is
      below 16. */
  lemma ThirdOpCode(m: DnsMessage)
    requires 0 <= m.OpCode.Code < 0x10
    ensures OpCodeBits(ThirdByte(m)) == m.OpCode.Code
  {
    SmallCode(m.OpCode.Code, 0x20);
    var v := (m.OpCode.Code % 0x20) as bv8;
    var x := ThirdOf(m.QR.Code, v, m.AuthoritativeAnswer, m.Truncated, m.RecursionDesired);
    ByteBits(x);
    OpCodeOf(ThirdByte(m), x);
    ThirdBits(m.QR.Code, v, m.AuthoritativeAnswer, m.Truncated, m.RecursionDesired);
  }

  lemma OpCodeOf(b: Byte, x: bv8)
    requires b as bv8 == x
    ensures OpCodeBits(b) == ((x & 0x78) >> 3) as int
  {
  }

  /** The flags read out of the third byte `GetBytes` writes, when the OPCODE
      is below 16; RD also by the test as written. */
  lemma ThirdFlags(m: DnsMessage)
    requires 0 <= m.OpCode.Code < 0x10
    ensures FlagSet(ThirdByte(m), 0x80) == m.QR.Code
    ensures FlagSet(ThirdByte(m), 0x04) == m.AuthoritativeAnswer
    ensures FlagSet(ThirdByte(m), 0x02) == m.Truncated
    ensures FlagSet(ThirdByte(m), 0x01) == m.RecursionDesired
    ensures FlagAsWritten(ThirdByte(m), 0x01) == m.RecursionDesired
  {
    SmallCode(m.OpCode.Code, 0x20);
    var v := (m.OpCode.Code % 0x20) as bv8;
    var x := ThirdOf(m.QR.Code, v, m.AuthoritativeAnswer, m.Truncated, m.RecursionDesired);
    ThirdBits(m.QR.Code, v, m.AuthoritativeAnswer, m.Truncated, m.RecursionDesired);
    var b := ThirdByte(m);
    assert b == x as int;
    FlagOf(b, x, 0x80);
    FlagOf(b, x, 0x04);
    FlagOf(b, x, 0x02);
    FlagOf(b, x, 0x01);
  }

  /** Both flag tests on a byte held as `int` are tests of its bits. */
  lemma FlagOf(b: Byte, x: bv8, mask: bv8)
    requires b == x as int
    ensures FlagSet(b, mask) == (x & mask != 0)
    ensures FlagAsWritten(b, mask) == (x & mask == 1)
  {
    MaskedTest(x, mask);
  }

  /** What the decoder reads out of the fourth byte, for an RCODE below 16. */
  lemma FourthDecodes(m: DnsMessage)
    requires 0 <= m.RCode.Code < 0x10
    ensures Masked(FourthByte(m), 0x0F) == m.RCode.Code
    ensures FlagSet(FourthByte(m), 0x80) == m.RecursionAvailable
  {
    SmallCode(m.RCode.Code, 0x100);
    var v := (m.RCode.Code % 0x100) as bv8;
    var x := Flag(m.RecursionAvailable, 0x80) | v;
    FourthBits(m.RecursionAvailable, v);
    var b := FourthByte(m);
    assert b == x as int;
    MaskedBits(x, 0x0F);
    FlagOf(b, x, 0x80);
  }

  /** `(b & mask) == 1` fails for every byte when `mask` is a bit above the
      lowest, so the QR, AA, TC and RA tests as written never hold; for RD's
      mask it is the bit test. */
  lemma FlagAsWrittenNever(b: Byte)
    ensures !FlagAsWritten(b, 0x80) && !FlagAsWritten(b, 0x04) && !FlagAsWritten(b, 0x02)
    ensures FlagAsWritten(b, 0x01) == FlagSet(b, 0x01)
  {
  }

  /** The 12 header bytes `GetBytes` writes read back field by field. */
  lemma HeaderAt(message: seq<Byte>, m: DnsMessage)
    requires At(message, 0, Header(m))
    ensures ShortAt(message, 0) == Success(m.Id)
    ensures FirstFrom(message, 2) == Success(ThirdByte(m))
    ensures FirstFrom(message, 3) == Success(FourthByte(m))
    ensures ShortAt(message, 4) == Success(m.QuestionCount)
    ensures ShortAt(message, 6) == Success(m.AnswerCount)
    ensures ShortAt(message, 8) == Success(m.AuthorityCount)
    ensures ShortAt(message, 10) == Success(m.AdditionalCount)
  {
    var id := GetBytesShort(m.Id);
    var flags := [ThirdByte(m), FourthByte(m)];
    var questions := GetBytesShort(m.QuestionCount);
    var answers := GetBytesShort(m.AnswerCount);
    var authorities := GetBytesShort(m.AuthorityCount);
    var additionals := GetBytesShort(m.AdditionalCount);
    AtSplit(message, 0, id + flags + questions + answers + authorities, additionals);
    AtSplit(message, 0, id + flags + questions + answers, authorities);
    AtSplit(message, 0, id + flags + questions, answers);
    AtSplit(message, 0, id + flags, questions);
    AtSplit(message, 0, id, flags);
    assert message[2] == flags[0] && message[3] == flags[1];
    ShortAtGetBytes(message, 0, m.Id);
    ShortAtGetBytes(message, 4, m.QuestionCount);
    ShortAtGetBytes(message, 6, m.AnswerCount);
    ShortAtGetBytes(message, 8, m.AuthorityCount);
    ShortAtGetBytes(message, 10, m.AdditionalCount);
  }

  // ----- Reading the sections back -----

  /** Wherever the encoding of `x` sits in a message, `decode` reads it
      back there as `x`, and the read ends right after it. */
  ghost predicate ReadsAt<T>(decode: (seq<Byte>, int) -> Result<(T, int)>, encode: T -> seq<Byte>,
                             message: seq<Byte>, at: nat, x: T) {
    At(message, at, encode(x)) ==> decode(message, at) == Success((x, at + |encode(x)|))
  }

  /** Each of `items` reads back wherever it is written. */
  ghost predicate ReadsBack<T>(decode: (seq<Byte>, int) -> Result<(T, int)>, encode: T -> seq<Byte>,
                               items: seq<T>) {
    forall message, at: nat, x | x in items :: ReadsAt(decode, encode, message, at, x)
  }

  /** Items that each read back wherever they are written, written back to
      back at `at`, read back as a section of the same items, and the
      section ends right after them. */
  lemma {:induction false} ItemsAt<T>(decode: (seq<Byte>, int) -> Result<(T, int)>,
                                      encode: T -> seq<Byte>,
                                      message: seq<Byte>, at: nat, items: seq<T>)
    requires ReadsBack(decode, encode, items)
    requires At(message, at, SelectMany(items, encode))
    ensures Items(decode, message, at, |items|)
         == Success((items, at + |SelectMany(items, encode)|))
    decreases items
  {
    if items != [] {
      var first := encode(items[0]);
      var tail := SelectMany(items[1..], encode);
      SelectManyCons(items, encode);
      AtSplit(message, at, first, tail);
      assert ReadsAt(decode, encode, message, at, items[0]);
      ItemsAt(decode, encode, message, at + |first|, items[1..]);
      assert [items[0]] + items[1..] == items;
    }
  }

  /** The same for a whole section of them. */
  lemma SectionAt<T>(decode: (seq<Byte>, int) -> Result<(T, int)>,
                     encode: T -> seq<Byte>,
                     message: seq<Byte>, at: nat, items: seq<T>)
    requires ReadsBack(decode, encode, items)
    requires At(message, at, SelectMany(items, encode))
    ensures Section(decode, message, at, |items|)
         == Success((items, at + |SelectMany(items, encode)|))
  {
    ItemsAt(decode, encode, message, at, items);
  }

  /** Well-formed questions read back wherever they are written. */
  lemma QuestionsReadBack(questions: seq<Questions.Question>)
    requires forall q :: q in questions ==> Questions.WellFormed(q)
    ensures ReadsBack(Questions.Decode, Questions.Encode, questions)
  {
    forall message, at: nat, q | q in questions
      ensures ReadsAt(Questions.Decode, Questions.Encode, message, at, q)
    {
      QuestionReadsAt(message, at, q);
    }
  }

  lemma QuestionReadsAt(message: seq<Byte>, at: nat, q: Questions.Question)
    requires Questions.WellFormed(q)
    ensures ReadsAt(Questions.Decode, Questions.Encode, message, at, q)
  {
    if At(message, at, Questions.Encode(q)) {
      Questions.DecodeAt(message, at, q);
    }
  }

  /** Well-formed records read back wherever they are written. */
  lemma RecordsReadBack(records: seq<Records.Record>)
    requires forall r :: r in records ==> Records.WellFormed(r)
    ensures ReadsBack(Records.Decode, Records.Encode, records)
  {
    forall message, at: nat, r | r in records
      ensures ReadsAt(Records.Decode, Records.Encode, message, at, r)
    {
      RecordReadsAt(message, at, r);
    }
  }

  lemma RecordReadsAt(message: seq<Byte>, at: nat, r: Records.Record)
    requires Records.WellFormed(r)
    ensures ReadsAt(Records.Decode, Records.Encode, message, at, r)
  {
    if At(message, at, Records.Encode(r)) {
      Records.DecodeAt(message, at, r);
    }
  }

  // ----- The round trip -----

  /** What the encoder writes and the decoder reads back unchanged: OPCODE
      and RCODE fit their four bits, every count is the size of its list,
      and every question and record is well formed. */
  predicate RoundTrips(m: DnsMessage) {
    && 0 <= m.OpCode.Code < 0x10 && 0 <= m.RCode.Code < 0x10
    && Counted(m)
    && (forall q :: q in m.Questions ==> Questions.WellFormed(q))
    && (forall r :: r in m.Answers ==> Records.WellFormed(r))
    && (forall r :: r in m.Authorities ==> Records.WellFormed(r))
    && (forall r :: r in m.Additionals ==> Records.WellFormed(r))
  }

  /** Four parts written back to back at `at` sit one after the other. */
  lemma PartsAt<T>(s: seq<T>, at: nat, a: seq<T>, b: seq<T>, c: seq<T>, d: seq<T>)
    requires At(s, at, a + b + c + d)
    ensures At(s, at, a) && At(s, at + |a|, b)
    ensures At(s, at + |a| + |b|, c) && At(s, at + |a| + |b| + |c|, d)
  {
    AtSplit(s, at, a + b + c, d);
    AtSplit(s, at, a + b, c);
    AtSplit(s, at, a, b);
  }

  /** The four lists, each encoded with `writeQuestion` or `writeRecord`,
      sit one after the other in `message` from the end of the header. */
  ghost predicate SectionsWritten<Q, R>(writeQuestion: Q -> seq<Byte>, writeRecord: R -> seq<Byte>,
                                        message: seq<Byte>, questions: seq<Q>,
                                        answers: seq<R>, authorities: seq<R>, additionals: seq<R>) {
    At(message, 12, SelectMany(questions, writeQuestion) + SelectMany(answers, writeRecord)
                      + SelectMany(authorities, writeRecord) + SelectMany(additionals, writeRecord))
  }

  /** Every item of the four lists reads back wherever it is written. */
  ghost predicate SectionsReadBack<Q, R>(readQuestion: (seq<Byte>, int) -> Result<(Q, int)>,
                                         writeQuestion: Q -> seq<Byte>,
                                         readRecord: (seq<Byte>, int) -> Result<(R, int)>,
                                         writeRecord: R -> seq<Byte>, questions: seq<Q>,
                                         answers: seq<R>, authorities: seq<R>, additionals: seq<R>) {
    && ReadsBack(readQuestion, writeQuestion, questions)
    && ReadsBack(readRecord, writeRecord, answers)
    && ReadsBack(readRecord, writeRecord, authorities)
    && ReadsBack(readRecord, writeRecord, additionals)
  }

  /** Each list is short enough for its size to be a 16-bit count. */
  predicate SectionsFit<Q, R>(questions: seq<Q>, answers: seq<R>, authorities: seq<R>, additionals: seq<R>) {
    |questions| < 0x8000 && |answers| < 0x8000 && |authorities| < 0x8000 && |additionals| < 0x8000
  }

  /** Items that read back, written one section after the other from the
      end of the header, read back as those sections. */
  lemma SectionsAt<Q, R>(readQuestion: (seq<Byte>, int) -> Result<(Q, int)>, writeQuestion: Q -> seq<Byte>,
                         readRecord: (seq<Byte>, int) -> Result<(R, int)>, writeRecord: R -> seq<Byte>,
                         message: seq<Byte>, questions: seq<Q>,
                         answers: seq<R>, authorities: seq<R>, additionals: seq<R>)
    requires SectionsFit(questions, answers, authorities, additionals)
    requires SectionsReadBack(readQuestion, writeQuestion, readRecord, writeRecord,
                              questions, answers, authorities, additionals)
    requires SectionsWritten(writeQuestion, writeRecord, message, questions, answers, authorities, additionals)
    ensures Sections(readQuestion, readRecord, message, |questions|, |answers|, |authorities|, |additionals|)
         == Success((questions, answers, authorities, additionals))
  {
    var q := 12 + |SelectMany(questions, writeQuestion)|;
    var an := q + |SelectMany(answers, writeRecord)|;
    var au := an + |SelectMany(authorities, writeRecord)|;
    PartsAt(message, 12, SelectMany(questions, writeQuestion), SelectMany(answers, writeRecord),
            SelectMany(authorities, writeRecord), SelectMany(additionals, writeRecord));
    SectionAt(readQuestion, writeQuestion, message, 12, questions);
    SectionAt(readRecord, writeRecord, message, q, answers);
    SectionAt(readRecord, writeRecord, message, an, authorities);
    SectionAt(readRecord, writeRecord, message, au, additionals);
  }

  /** The questions and records of a message that round-trips read back
      wherever they are written. */
  lemma MessageReadsBack(m: DnsMessage)
    requires RoundTrips(m)
    ensures SectionsReadBack(Questions.Decode, Questions.Encode, Records.Decode, Records.Encode,
                             m.Questions, m.Answers, m.Authorities, m.Additionals)
  {
    QuestionsReadBack(m.Questions);
    RecordsReadBack(m.Answers);
    RecordsReadBack(m.Authorities);
    RecordsReadBack(m.Additionals);
  }

  /** The sections of a message that round-trips, written one after the
      other from the end of the header, read back as its sections. */
  lemma EncodedSections(message: seq<Byte>, m: DnsMessage)
    requires RoundTrips(m)
    requires SectionsWritten(Questions.Encode, Records.Encode, message,
                             m.Questions, m.Answers, m.Authorities, m.Additionals)
    ensures Sections(Questions.Decode, Records.Decode, message,
                     m.QuestionCount, m.AnswerCount, m.AuthorityCount, m.AdditionalCount)
         == Success((m.Questions, m.Answers, m.Authorities, m.Additionals))
  {
    MessageReadsBack(m);
    SectionsAt(Questions.Decode, Questions.Encode, Records.Decode, Records.Encode,
               message, m.Questions, m.Answers, m.Authorities, m.Additionals);
  }
  /** The decoder, given header fields that read back as `m`'s, with flag
      bytes `third` and `fourth`, and sections that read back as `m`'s,
      builds the message from exactly those. */
  lemma DecodeParts(flag: (Byte, bv8) -> bool, message: seq<Byte>, m: DnsMessage, third: Byte, fourth: Byte)
    requires ShortAt(message, 0) == Success(m.Id)
    requires FirstFrom(message, 2) == Success(third)
    requires FirstFrom(message, 3) == Success(fourth)
    requires ShortAt(message, 4) == Success(m.QuestionCount)
    requires ShortAt(message, 6) == Success(m.AnswerCount)
    requires ShortAt(message, 8) == Success(m.AuthorityCount)
    requires ShortAt(message, 10) == Success(m.AdditionalCount)
    requires Sections(Questions.Decode, Records.Decode, message,
                      m.QuestionCount, m.AnswerCount, m.AuthorityCount, m.AdditionalCount)
          == Success((m.Questions, m.Answers, m.Authorities, m.Additionals))
    ensures DecodeWith(flag, message)
         == Success(Assemble(flag, m.Id, third, fourth,
                             m.QuestionCount, m.AnswerCount, m.AuthorityCount, m.AdditionalCount,
                             m.Questions, m.Answers, m.Authorities, m.Additionals))
  {
  }

  /** Whatever follows it, an encoded message that round-trips decodes
      with `flag` to the message built from its own header bytes and
      lists. */
  lemma DecodeWithEncoded(flag: (Byte, bv8) -> bool, m: DnsMessage, rest: seq<Byte>)
    requires RoundTrips(m)
    ensures DecodeWith(flag, Encode(m) + rest)
         == Success(Assemble(flag, m.Id, ThirdByte(m), FourthByte(m),
                             m.QuestionCount, m.AnswerCount, m.AuthorityCount, m.AdditionalCount,
                             m.Questions, m.Answers, m.Authorities, m.Additionals))
  {
    var message := Encode(m) + rest;
    Prefix(Encode(m), rest);
    AtSplit(message, 0, Header(m), SectionBytes(m));
    HeaderAt(message, m);
    EncodedSections(message, m);
    DecodeParts(flag, message, m, ThirdByte(m), FourthByte(m));
  }

  /** Header bytes written from a message with a code in range read back as
      its own fields when each flag is read as the bit it names. */
  lemma AssembleSet(m: DnsMessage)
    requires RoundTrips(m)
    ensures Assemble(FlagSet, m.Id, ThirdByte(m), FourthByte(m),
                     m.QuestionCount, m.AnswerCount, m.AuthorityCount, m.AdditionalCount,
                     m.Questions, m.Answers, m.Authorities, m.Additionals) == m
  {
    ThirdOpCode(m);
    ThirdFlags(m);
    FourthDecodes(m);
  }

  /** `m` with the four flags the decoder as written cannot read cleared:
      a query, AA, TC and RA false. */
  function Cleared(m: DnsMessage): DnsMessage {
    m.(QR := MessageTypes.Query, AuthoritativeAnswer := false, Truncated := false,
       RecursionAvailable := false)
  }

  /** The tests as written give what the bit tests give, with QR, AA, TC
      and RA cleared. */
  lemma AssembleCleared(id: Int16, thirdByte: Byte, fourthByte: Byte,
                        questionCount: Int16, answerCount: Int16,
                        authorityCount: Int16, additionalCount: Int16,
                        questions: seq<Questions.Question>, answers: seq<Records.Record>,
                        authorities: seq<Records.Record>, additionals: seq<Records.Record>)
    ensures Assemble(FlagAsWritten, id, thirdByte, fourthByte, questionCount, answerCount,
                     authorityCount, additionalCount, questions, answers, authorities, additionals)
         == Cleared(Assemble(FlagSet, id, thirdByte, fourthByte, questionCount, answerCount,
                             authorityCount, additionalCount, questions, answers, authorities, additionals))
  {
    FlagAsWrittenNever(thirdByte);
    FlagAsWrittenNever(fourthByte);
  }

  /** For every input the decoder as written fails where the bit-test
      decoder fails, and otherwise gives its message with QR, AA, TC and RA
      cleared. */
  lemma AsWrittenClears(message: seq<Byte>)
    ensures DecodeAsWritten(message).Failure? <==> Decode(message).Failure?
    ensures Decode(message).Success? ==> DecodeAsWritten(message) == Success(Cleared(Decode(message).value))
  {
    if 12 <= |message| {
      var third := message[2];
      var fourth := message[3];
      var sections := Sections(Questions.Decode, Records.Decode, message,
                               BigEndian16(message[4], message[5]), BigEndian16(message[6], message[7]),
                               BigEndian16(message[8], message[9]), BigEndian16(message[10], message[11]));
      if sections.Success? {
        AssembleCleared(BigEndian16(message[0], message[1]), third, fourth,
                        BigEndian16(message[4], message[5]), BigEndian16(message[6], message[7]),
                        BigEndian16(message[8], message[9]), BigEndian16(message[10], message[11]),
                        sections.value.0, sections.value.1, sections.value.2, sections.value.3);
      }
    }
  }

  /** Read as written, with `(b & mask) == 1`, the same bytes give the
      message back with QR, AA, TC and RA cleared. */
  lemma AssembleAsWritten(m: DnsMessage)
    requires RoundTrips(m)
    ensures Assemble(FlagAsWritten, m.Id, ThirdByte(m), FourthByte(m),
                     m.QuestionCount, m.AnswerCount, m.AuthorityCount, m.AdditionalCount,
                     m.Questions, m.Answers, m.Authorities, m.Additionals)
         == Cleared(m)
  {
    ThirdOpCode(m);
    ThirdFlags(m);
    FourthDecodes(m);
    FlagAsWrittenNever(ThirdByte(m));
    FlagAsWrittenNever(FourthByte(m));
  }

  /** Round trip: a message that round-trips, encoded and followed by any
      bytes (the zero padding of the receive buffer, say), decodes to
      itself. */
  lemma DecodeEncode(m: DnsMessage, rest: seq<Byte>)
    requires RoundTrips(m)
    ensures Decode(Encode(m) + rest) == Success(m)
  {
    DecodeWithEncoded(FlagSet, m, rest);
    AssembleSet(m);
  }

  /** The decoder as written loses QR, AA, TC and RA: every encoded message
      reads back as a query with those three flags cleared. */
  lemma DecodeAsWrittenEncode(m: DnsMessage, rest: seq<Byte>)
    requires RoundTrips(m)
    ensures DecodeAsWritten(Encode(m) + rest)
         == Success(Cleared(m))
  {
    DecodeWithEncoded(FlagAsWritten, m, rest);
    AssembleAsWritten(m);
  }

  /** Every response `GetBytes` writes, with its codes in range and its
      counts and names well formed, reads back as a query under the decoder
      as written, with the rest of it intact, and as itself under the bit
      test. */
  lemma ResponseReadAsQuery(m: DnsMessage, rest: seq<Byte>)
    requires RoundTrips(m) && m.QR == MessageTypes.Response
    ensures DecodeAsWritten(Encode(m) + rest).Success?
    ensures DecodeAsWritten(Encode(m) + rest).value.QR == MessageTypes.Query
    ensures DecodeAsWritten(Encode(m) + rest).value.(QR := m.QR) == m.(AuthoritativeAnswer := false,
      Truncated := false, RecursionAvailable := false)
    ensures Decode(Encode(m) + rest) == Success(m)
  {
    DecodeAsWrittenEncode(m, rest);
    DecodeEncode(m, rest);
  }

  /** Fewer than 12 bytes never decode: some header read runs past the end. */
  lemma ShortMessage(flag: (Byte, bv8) -> bool, message: seq<Byte>)
    requires |message| < 12
    ensures DecodeWith(flag, message).Failure?
  {
  }

  /** What a decoded message holds: the header fields are the big-endian
      words and flag bits at their fixed offsets, and each list holds as
      many items as its count says, none when the count is negative. */
  lemma Decoded(flag: (Byte, bv8) -> bool, message: seq<Byte>, m: DnsMessage)
    requires DecodeWith(flag, message) == Success(m)
    ensures 12 <= |message|
    ensures m.Id == BigEndian16(message[0], message[1])
    ensures m.QR.Code == flag(message[2], 0x80) && m.OpCode.Code == OpCodeBits(message[2])
    ensures m.AuthoritativeAnswer == flag(message[2], 0x04)
    ensures m.Truncated == flag(message[2], 0x02) && m.RecursionDesired == flag(message[2], 0x01)
    ensures m.RecursionAvailable == flag(message[3], 0x80)
    ensures m.RCode.Code == Masked(message[3], 0x0F)
    ensures m.QuestionCount == BigEndian16(message[4], message[5])
    ensures m.AnswerCount == BigEndian16(message[6], message[7])
    ensures m.AuthorityCount == BigEndian16(message[8], message[9])
    ensures m.AdditionalCount == BigEndian16(message[10], message[11])
    ensures |m.Questions| == (if m.QuestionCount < 0 then 0 else m.QuestionCount)
    ensures |m.Answers| == (if m.AnswerCount < 0 then 0 else m.AnswerCount)
    ensures |m.Authorities| == (if m.AuthorityCount < 0 then 0 else m.AuthorityCount)
    ensures |m.Additionals| == (if m.AdditionalCount < 0 then 0 else m.AdditionalCount)
  {
  }
}
