/** Domain/DnsMessage/OpCode.cs: the OPCODE header field, held as an `int`. */
module OpCodes {

  /** The readonly `Code` is the only state. */
  datatype OpCode = OpCode(Code: int)

  const Query: OpCode := OpCode(0)
  const InverseQuery: OpCode := OpCode(1)
  const Status: OpCode := OpCode(2)
  const Notify: OpCode := OpCode(4)
  const Update: OpCode := OpCode(5)

  /** `OpCode.Parse`: wraps any int, including values above 15. */
  function Parse(value: int): (r: OpCode)
    ensures r.Code == value
  {
    OpCode(value)
  }

  /** The named codes, pairwise distinct; the unnamed code 3 still parses;
      a value is the parse of its own code. */
  lemma NamedCodes(op: OpCode)
    ensures Query.Code == 0 && InverseQuery.Code == 1 && Status.Code == 2
    ensures Notify.Code == 4 && Update.Code == 5
    ensures var named := [Query, InverseQuery, Status, Notify, Update];
      (forall i, j :: 0 <= i < j < |named| ==> named[i].Code != named[j].Code)
      && Parse(3) !in named && Parse(3).Code == 3
    ensures Parse(op.Code) == op
  {
  }
}
