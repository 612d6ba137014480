/** Domain/DnsMessage/QueryClass.cs: the 16-bit CLASS code. */
module QueryClasses {
  import opened Convert

  /** The readonly `Code` is the only state. */
  datatype QueryClass = QueryClass(Code: Int16)

  const Internet: QueryClass := QueryClass(1)

  /** `QueryClass.Parse`: accepts every code. */
  function Parse(value: Int16): (r: QueryClass)
    ensures r.Code == value
  {
    QueryClass(value)
  }

  /** `Internet` is class 1, and a value is the parse of its own code. */
  lemma NamedCodes(c: QueryClass)
    ensures Internet.Code == 1
    ensures Parse(c.Code) == c
  {
  }
}
