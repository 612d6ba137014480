/** App/DnsServer.cs: the cache of records learned from upstream, the lookup
    that answers a query from it, and the learning step after an upstream
    reply. Sockets, the JSON file and the console are not modelled: the
    upstream exchange is a function parameter and the clock is `now`. */
module Server {
  import opened Wrappers
  import opened Convert
  import opened Linq
  import Questions
  import Records
  import CacheRecords
  import MessageTypes
  import Messages

  type Match = (Questions.Question, CacheRecords.CacheRecord) -> bool

  // ----- Lookup -----

  /** `question.Equals(record)` in the cache lookup, with `record` a cache
      entry: the argument is a `CacheRecord`, not a `Question`. */
  predicate SourceMatch(q: Questions.Question, e: CacheRecords.CacheRecord) {
    Questions.Equals(q, Questions.CacheRecordObject(e))
  }

  /** The records of the cache entries `matches` pairs with `q`, in cache
      order: what the inner loop adds to `answers` for one question. */
  function Hits(matches: Match, q: Questions.Question, cache: seq<CacheRecords.CacheRecord>)
    : seq<Records.Record>
  {
    if cache == [] then []
    else
      var last := cache[|cache| - 1];
      Hits(matches, q, cache[..|cache| - 1]) + (if matches(q, last) then [last.Record] else [])
  }

  /** The answers `TryGetAnswerFromCache` collects for `questions`, or `None`
      as soon as one question has no entry. */
  function Lookup(matches: Match, questions: seq<Questions.Question>,
                  cache: seq<CacheRecords.CacheRecord>): Option<seq<Records.Record>>
  {
    if questions == [] then Some([])
    else
      match Lookup(matches, questions[..|questions| - 1], cache)
      case None => None
      case Some(answers) =>
        var hits := Hits(matches, questions[|questions| - 1], cache);
        if hits == [] then None else Some(answers + hits)
  }

  /** The answer built from the cache: a response with the query's `Id`,
      `OpCode` and questions, AA cleared, and the collected records. */
  function CacheAnswer(message: Messages.DnsMessage, answers: seq<Records.Record>): Messages.DnsMessage {
    Messages.Create(message.Id, MessageTypes.Response, message.OpCode, false, message.Questions, answers)
  }

  // ----- Learning -----

  /** The records `SaveToCache` takes from a reply: answers, then
      authorities, then additionals. */
  function Learned(answer: Messages.DnsMessage): seq<Records.Record> {
    answer.Answers + answer.Authorities + answer.Additionals
  }

  /** Each record wrapped in a cache entry stamped at `now`. */
  function Stamped(records: seq<Records.Record>, now: int): (entries: seq<CacheRecords.CacheRecord>)
    ensures |entries| == |records|
    ensures forall i :: 0 <= i < |records| ==>
      entries[i].Record == records[i] && entries[i].DueTime == now + records[i].TimeToLive
  {
    seq(|records|, i requires 0 <= i < |records| => CacheRecords.Create(records[i], now))
  }

  /** The placeholder `SaveToCache` builds for an unanswered question:
      the question's name, type and class, TTL 20000, no data. */
  function Placeholder(q: Questions.Question): Records.Record {
    Records.Record(q.Name, q.Type, q.QueryClass, 20000, 0, [])
  }

  /** The upstream step as a function: the query encoded, `exchange` for
      the socket round trip, and the reply decoded as the decoder is
      written. */
  function Upstream(exchange: seq<Byte> -> Result<seq<Byte>>, message: Messages.DnsMessage)
    : Result<Messages.DnsMessage>
  {
    var buffer :- exchange(Messages.Encode(message));
    Messages.DecodeAsWritten(buffer)
  }

  class DnsServer {
    /** The `List<CacheRecord>`, appended to and never shrunk. */
    var cache: seq<CacheRecords.CacheRecord>
    const online: bool

    /** `new DnsServer(address, online)`: the cache read from the file, or
        empty when the file cannot be read. */
    constructor(online: bool, loaded: Option<seq<CacheRecords.CacheRecord>>)
      ensures this.online == online
      ensures cache == (if loaded.Some? then loaded.value else [])
    {
      this.online := online;
      cache := if loaded.Some? then loaded.value else [];
    }

    /** `TryGetAnswerFromCache`, as written: for each question a scan of the
        whole cache with a `found` flag, stopping at the first question with
        no entry. */
    method TryGetAnswerFromCache(message: Messages.DnsMessage) returns (found: bool, answer: Option<Messages.DnsMessage>)
      ensures found == Lookup(SourceMatch, message.Questions, cache).Some?
      ensures found ==> answer == Some(CacheAnswer(message, Lookup(SourceMatch, message.Questions, cache).value))
      ensures !found ==> answer == None
    {
      var questions := message.Questions;
      var answers: seq<Records.Record> := [];
      for i := 0 to |questions|
        invariant Lookup(SourceMatch, questions[..i], cache) == Some(answers)
      {
        var question := questions[i];
        var hit := false;
        ghost var before := answers;
        for j := 0 to |cache|
          invariant answers == before + Hits(SourceMatch, question, cache[..j])
          invariant hit == (Hits(SourceMatch, question, cache[..j]) != [])
        {
          var record := cache[j];
          assert cache[..j + 1][..j] == cache[..j];
          if !Questions.Equals(question, Questions.CacheRecordObject(record)) {
            continue;
          }
          answers := answers + [record.Record];
          hit := true;
        }
        assert cache[..|cache|] == cache;
        assert questions[..i + 1][..i] == questions[..i];
        if hit {
          continue;
        }
        LookupStops(SourceMatch, questions, i + 1, cache);
        return false, None;
      }
      assert questions[..|questions|] == questions;
      return true, Some(CacheAnswer(message, answers));
    }

    /** `SaveToCache`, as written: a check per question whose `Append`
        result is dropped, then every record of the reply stamped and added
        at the end of the cache. */
    method SaveToCache(message: Messages.DnsMessage, answer: Messages.DnsMessage, now: int)
      modifies this
      ensures cache == old(cache) + Stamped(Learned(answer), now)
    {
      var records := answer.Answers + answer.Authorities + answer.Additionals;
      for i := 0 to |message.Questions| {
        var question := message.Questions[i];
        if !(exists record | record in records :: Questions.Equals(question, Questions.RecordObject(record))) {
          var appended := records + [Placeholder(question)];
        }
      }
      for i := 0 to |records|
        invariant cache == old(cache) + Stamped(records[..i], now)
      {
        assert Stamped(records[..i + 1], now) == Stamped(records[..i], now) + [CacheRecords.Create(records[i], now)];
        cache := cache + [CacheRecords.Create(records[i], now)];
      }
      assert records[..|records|] == records;
    }

    /** `GetAnswerFromDns`: the query sent upstream as `GetBytes` gives it,
        the reply decoded and learned. A socket or decoding exception ends
        the call with the cache as it was. */
    method GetAnswerFromDns(message: Messages.DnsMessage, exchange: seq<Byte> -> Result<seq<Byte>>, now: int)
      returns (r: Result<Messages.DnsMessage>)
      modifies this
      ensures r == Upstream(exchange, message)
      ensures r.Success? ==> cache == old(cache) + Stamped(Learned(r.value), now)
      ensures r.Failure? ==> cache == old(cache)
    {
      var request := Messages.GetBytes(message);
      var buffer :- exchange(request);
      var answer :- Messages.FromBytes(buffer);
      SaveToCache(message, answer, now);
      return Success(answer);
    }

    /** `GetAnswer`: the cache answer on a hit, with the cache untouched;
        on a miss nothing when offline, otherwise the upstream answer. On
        every path the cache only grows at its end: earlier entries are
        never changed, reordered or dropped. */
    method GetAnswer(message: Messages.DnsMessage, exchange: seq<Byte> -> Result<seq<Byte>>, now: int)
      returns (r: Result<Option<Messages.DnsMessage>>)
      modifies this
      ensures Lookup(SourceMatch, message.Questions, old(cache)).Some? ==>
        r == Success(Some(CacheAnswer(message, Lookup(SourceMatch, message.Questions, old(cache)).value)))
        && cache == old(cache)
      ensures Lookup(SourceMatch, message.Questions, old(cache)).None? && !online ==>
        r == Success(None) && cache == old(cache)
      ensures Lookup(SourceMatch, message.Questions, old(cache)).None? && online ==>
        match Upstream(exchange, message)
        case Success(answer) => r == Success(Some(answer)) && cache == old(cache) + Stamped(Learned(answer), now)
        case Failure(e) => r == Failure(e) && cache == old(cache)
      ensures |old(cache)| <= |cache| && cache[..|old(cache)|] == old(cache)
    {
      var found, answer := TryGetAnswerFromCache(message);
      if found {
        return Success(answer);
      }
      if !online {
        return Success(None);
      }
      var reply := GetAnswerFromDns(message, exchange, now);
      if reply.Failure? {
        return Failure(reply.error);
      }
      return Success(Some(reply.value));
    }
  }

  // ----- Properties of the lookup -----

  /** Once a prefix of the questions misses, the whole lookup misses. */
  lemma {:induction false} LookupStops(matches: Match, questions: seq<Questions.Question>, n: nat,
                                       cache: seq<CacheRecords.CacheRecord>)
    requires n <= |questions| && Lookup(matches, questions[..n], cache) == None
    ensures Lookup(matches, questions, cache) == None
    decreases |questions| - n
  {
    if n < |questions| {
      assert questions[..n + 1][..n] == questions[..n];
      LookupStops(matches, questions, n + 1, cache);
    } else {
      assert questions[..n] == questions;
    }
  }

  /** A record is a hit for `q` exactly when it is the record of an entry
      `matches` pairs with `q`; there are none exactly when no entry
      matches; there are never more than entries. */
  lemma {:induction false} HitsAre(matches: Match, q: Questions.Question, cache: seq<CacheRecords.CacheRecord>,
                                   r: Records.Record)
    ensures r in Hits(matches, q, cache) <==> exists e :: e in cache && matches(q, e) && e.Record == r
    ensures Hits(matches, q, cache) == [] <==> forall e :: e in cache ==> !matches(q, e)
    ensures |Hits(matches, q, cache)| <= |cache|
    decreases |cache|
  {
    if cache != [] {
      var prefix := cache[..|cache| - 1];
      var last := cache[|cache| - 1];
      HitsAre(matches, q, prefix, r);
      assert cache == prefix + [last];
      if matches(q, last) {
        assert last.Record in Hits(matches, q, cache);
      }
    }
  }

  /** The lookup succeeds exactly when every question has at least one
      entry that matches it. */
  lemma {:induction false} LookupFinds(matches: Match, questions: seq<Questions.Question>,
                                       cache: seq<CacheRecords.CacheRecord>)
    ensures Lookup(matches, questions, cache).Some?
        <==> forall i :: 0 <= i < |questions| ==> Hits(matches, questions[i], cache) != []
    decreases |questions|
  {
    if questions != [] {
      var prefix := questions[..|questions| - 1];
      LookupFinds(matches, prefix, cache);
      assert forall i :: 0 <= i < |prefix| ==> prefix[i] == questions[i];
    }
  }

  /** On success the answers are, question by question in order, the
      question's hits in cache order. */
  lemma {:induction false} LookupAnswers(matches: Match, questions: seq<Questions.Question>,
                                         cache: seq<CacheRecords.CacheRecord>)
    requires Lookup(matches, questions, cache).Some?
    ensures Lookup(matches, questions, cache).value
         == SelectMany(questions, q => Hits(matches, q, cache))
    decreases |questions|
  {
    if questions != [] {
      var prefix := questions[..|questions| - 1];
      var last := questions[|questions| - 1];
      LookupAnswers(matches, prefix, cache);
      assert questions == prefix + [last];
      SelectManySnoc(prefix, last, q => Hits(matches, q, cache));
    }
  }

  /** As written the lookup matches nothing: the argument of `Equals` is
      never a question. */
  lemma SourceMatchNever(q: Questions.Question, e: CacheRecords.CacheRecord)
    ensures !SourceMatch(q, e)
  {
  }

  /** So, as written, any query with a question misses whatever the cache
      holds, and a query with no question hits with no answers. */
  lemma {:induction false} AsWrittenMisses(questions: seq<Questions.Question>,
                                           cache: seq<CacheRecords.CacheRecord>)
    ensures questions != [] ==> Lookup(SourceMatch, questions, cache) == None
    ensures questions == [] ==> Lookup(SourceMatch, questions, cache) == Some([])
  {
    if questions != [] {
      var q := questions[0];
      forall e | e in cache ensures !SourceMatch(q, e) {
        SourceMatchNever(q, e);
      }
      HitsAre(SourceMatch, q, cache, Placeholder(q));
      LookupFinds(SourceMatch, questions, cache);
    }
  }

  // ----- Properties of learning -----

  /** The entries learned from a reply are its records, in order, each
      stamped at `now`: the cache grows by exactly the three section sizes
      and holds none of the query's own questions unless the reply carried
      them. */
  lemma LearnedEntries(answer: Messages.DnsMessage, now: int)
    ensures |Stamped(Learned(answer), now)|
         == |answer.Answers| + |answer.Authorities| + |answer.Additionals|
    ensures forall e :: e in Stamped(Learned(answer), now) ==>
      e.Record in answer.Answers || e.Record in answer.Authorities || e.Record in answer.Additionals
  {
    var learned := Learned(answer);
    forall e | e in Stamped(learned, now)
      ensures e.Record in answer.Answers || e.Record in answer.Authorities || e.Record in answer.Additionals
    {
      var i :| 0 <= i < |learned| && Stamped(learned, now)[i] == e;
      assert e.Record == learned[i];
    }
  }

  /** When the reply on the wire is the encoding of a message that
      round-trips, followed by any padding, the cache learns exactly that
      message's records: the lost flags do not reach the sections. */
  lemma UpstreamLearns(exchange: seq<Byte> -> Result<seq<Byte>>, message: Messages.DnsMessage,
                       reply: Messages.DnsMessage, padding: seq<Byte>)
    requires Messages.RoundTrips(reply)
    requires exchange(Messages.Encode(message)) == Success(Messages.Encode(reply) + padding)
    ensures Upstream(exchange, message).Success?
    ensures Learned(Upstream(exchange, message).value) == Learned(reply)
  {
    Messages.DecodeAsWrittenEncode(reply, padding);
  }
}
