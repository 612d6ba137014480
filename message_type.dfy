/** Domain/DnsMessage/MessageType.cs: the QR bit, held as a `bool`. */
module MessageTypes {

  /** The readonly `Code` is the only state. */
  datatype MessageType = MessageType(Code: bool)

  const Query: MessageType := MessageType(false)
  const Response: MessageType := MessageType(true)

  /** `MessageType.Parse`. */
  function Parse(value: bool): (r: MessageType)
    ensures r.Code == value
    ensures r == (if value then Response else Query)
  {
    MessageType(value)
  }

  /** `Query` is false and `Response` is true, and every value is one of the two. */
  lemma TwoValues(t: MessageType)
    ensures !Query.Code && Response.Code
    ensures t == Query || t == Response
    ensures Parse(t.Code) == t
  {
  }
}
