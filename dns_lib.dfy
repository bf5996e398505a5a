/** The two entry points of the DNS codec crate (`dns/src/lib.rs`). */
module Dns {
  import opened Bytes
  import opened Wrappers
  import opened Cursors
  import DnsUtils
  import DnsHeader
  import DnsQuestion
  import DnsRequestMessage
  import DnsResponseMessage

  /** `encode_request`: the request for `domain` written into a fresh buffer. It never fails,
      and it is eighteen bytes longer than the domain. */
  method EncodeRequest(domain: seq<uint8>) returns (r: Result<seq<uint8>>)
    ensures r == Ok(DnsRequestMessage.RequestBytes(DnsRequestMessage.New(domain)))
    ensures |r.value| == |domain| + 18
  {
    var msg := DnsRequestMessage.New(domain);
    r := DnsRequestMessage.ToBytes(msg, []);
    assert [] + DnsRequestMessage.RequestBytes(msg) == DnsRequestMessage.RequestBytes(msg);
  }

  /** `decode_response`. */
  method DecodeResponse(responseBytes: seq<uint8>) returns (r: Result<DnsResponseMessage.ResponseMessage>)
    ensures r == DnsResponseMessage.ResponseOf(responseBytes)
  {
    r := DnsResponseMessage.ParseResponse(responseBytes);
  }

  /** A request read back as a response: the request header, the question asked for a
      well-formed domain without zero bytes, and no answers, so no address. */
  lemma DecodeOwnRequest(domain: seq<uint8>)
    requires DnsUtils.WellFormedDomain(domain) && 0 !in domain
    ensures var m := DnsResponseMessage.ResponseOf(DnsRequestMessage.RequestBytes(DnsRequestMessage.New(domain)));
      && m == Ok(DnsResponseMessage.ResponseMessage(DnsHeader.New(), Some(DnsQuestion.New(domain)), []))
      && DnsResponseMessage.FirstAddress(m.value) == None
      && DnsResponseMessage.LastAddress(m.value) == None
  {
    var h := DnsHeader.New();
    var q := DnsQuestion.New(domain);
    var qb := DnsQuestion.QuestionBytes(q);
    var bytes := DnsRequestMessage.RequestBytes(DnsRequestMessage.New(domain));
    DnsHeader.HeaderRoundTrip(h, [], qb);
    assert [] + DnsHeader.HeaderBytes(h) + qb == bytes;
    DnsQuestion.QuestionRoundTrip(domain, DnsHeader.HeaderBytes(h), []);
    assert DnsHeader.HeaderBytes(h) + qb + [] == bytes;
    assert DnsResponseMessage.QuestionPartAt(bytes, 12, 1) == Ok(Read(Some(q), 18 + |domain|));
  }
}
