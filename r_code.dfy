/** Domain/DnsMessage/RCode.cs: the RCODE header field, held as an `int`. */
module RCodes {

  /** The readonly `Code` is the only state. */
  datatype RCode = RCode(Code: int)

  const OK: RCode := RCode(0)
  const NameError: RCode := RCode(3)

  /** `RCode.Parse`: total, no code is rejected. */
  function Parse(value: int): (r: RCode)
    ensures r.Code == value
  {
    RCode(value)
  }

  /** `OK` is 0 and `NameError` is 3; a value is the parse of its own code. */
  lemma NamedCodes(rc: RCode)
    ensures OK.Code == 0 && NameError.Code == 3 && OK != NameError
    ensures Parse(rc.Code) == rc
  {
  }
}
