/** Domain/DnsMessage/QueryType.cs: the 16-bit TYPE code of a question or
    record. Every code is representable; eight of them have names. */
module QueryTypes {
  import opened Convert

  /** The readonly `Code` is the only state. */
  datatype QueryType = QueryType(Code: Int16)

  const A: QueryType := QueryType(1)
  const NS: QueryType := QueryType(2)
  const CNAME: QueryType := QueryType(5)
  const PTR: QueryType := QueryType(12)
  const HINFO: QueryType := QueryType(13)
  const MX: QueryType := QueryType(15)
  const AXFR: QueryType := QueryType(252)
  const Any: QueryType := QueryType(255)

  /** `QueryType.Parse`: wraps any code, known or not, and rejects none. */
  function Parse(value: Int16): (r: QueryType)
    ensures r.Code == value
  {
    QueryType(value)
  }

  /** The named constants have the codes of section 3.2.2 and 3.2.3 of
      RFC 1035, pairwise distinct; and since `Code` is the only state, a value
      is the parse of its own code. */
  lemma NamedCodes(t: QueryType)
    ensures A.Code == 1 && NS.Code == 2 && CNAME.Code == 5 && PTR.Code == 12
    ensures HINFO.Code == 13 && MX.Code == 15 && AXFR.Code == 252 && Any.Code == 255
    ensures var named := [A, NS, CNAME, PTR, HINFO, MX, AXFR, Any];
      forall i, j :: 0 <= i < j < |named| ==> named[i].Code != named[j].Code
    ensures Parse(t.Code) == t
  {
  }
}
