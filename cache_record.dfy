/** Domain/CacheRecord.cs: a record as it sits in the cache, stamped with the
    instant it stops being fresh. Time is whole seconds, passed in. */
module CacheRecords {
  import Records

  /** Both fields are readonly and set once by the constructor. */
  datatype CacheRecord = CacheRecord(Record: Records.Record, DueTime: int)

  /** `new CacheRecord(record)` at the instant `now`: the record unchanged,
      due `TimeToLive` seconds after `now`. */
  function Create(record: Records.Record, now: int): (c: CacheRecord)
    ensures c.Record == record
    ensures c.DueTime - now == record.TimeToLive
  {
    CacheRecord(record, now + record.TimeToLive)
  }

  /** The due time is `now` for a zero TTL, before `now` for a negative TTL
      and after it for a positive one; records stamped at the same instant
      are due in the order of their TTLs. */
  lemma DueTimeOrder(record: Records.Record, other: Records.Record, now: int)
    ensures record.TimeToLive == 0 ==> Create(record, now).DueTime == now
    ensures record.TimeToLive < 0 ==> Create(record, now).DueTime < now
    ensures record.TimeToLive > 0 ==> Create(record, now).DueTime > now
    ensures Create(record, now).DueTime <= Create(other, now).DueTime
        <==> record.TimeToLive <= other.TimeToLive
  {
  }
}
