/** The query the resolver sends: a fixed header and one question
    (`dns/src/request_message.rs`). */
module DnsRequestMessage {
  import opened Bytes
  import opened Wrappers
  import DnsHeader
  import DnsQuestion
  import DnsUtils

  datatype RequestMessage = RequestMessage(header: DnsHeader.Header, question: DnsQuestion.Question)

  /** `RequestMessage::new`: the request header and an address question for `domain`. */
  function New(domain: seq<uint8>): (m: RequestMessage)
    ensures m.header == DnsHeader.New() && m.question == DnsQuestion.New(domain)
  {
    RequestMessage(DnsHeader.New(), DnsQuestion.New(domain))
  }

  /** The bytes of a request: the header's twelve, then the question's. */
  function RequestBytes(m: RequestMessage): seq<uint8> {
    DnsHeader.HeaderBytes(m.header) + DnsQuestion.QuestionBytes(m.question)
  }

  /** `to_bytes`: the header, then the question, appended to the caller's buffer. Writing to a
      growable buffer cannot fail, so the header's result is always `Ok`. */
  method ToBytes(m: RequestMessage, bytes: seq<uint8>) returns (r: Result<seq<uint8>>)
    ensures r == Ok(bytes + RequestBytes(m))
    ensures |r.value| == |bytes| + 18 + |m.question.domain|
  {
    var b := DnsHeader.ToBytes(m.header, bytes);
    r := DnsQuestion.ToBytes(m.question, b.value);
    assert r.value == bytes + (DnsHeader.HeaderBytes(m.header) + DnsQuestion.QuestionBytes(m.question));
  }

  /** Every request starts with the same twelve header bytes, then the qname of its domain,
      then type A and class IN. */
  lemma RequestLayout(domain: seq<uint8>)
    ensures RequestBytes(New(domain))
      == [209, 183, 1, 0, 0, 1, 0, 0, 0, 0, 0, 0] + DnsUtils.Qname(domain) + [0, 1, 0, 1]
  {
    DnsHeader.NewHeaderBytes();
    assert U16Bytes(1) == [0, 1];
  }

  /** The bytes of "baidu.com". */
  const Baidu: seq<uint8> := [98, 97, 105, 100, 117, 0x2E, 99, 111, 109]

  /** "baidu.com" is the labels "baidu" and "com" around a dot. */
  lemma BaiduLabels(d: seq<uint8>)
    requires d == Baidu
    ensures d == [98, 97, 105, 100, 117] + [DnsUtils.Dot] + [99, 111, 109]
  {
  }

  /** "baidu.com" becomes 5 "baidu" 3 "com" 0. */
  lemma BaiduQname(d: seq<uint8>)
    requires d == [98, 97, 105, 100, 117] + [DnsUtils.Dot] + [99, 111, 109]
    ensures DnsUtils.Qname(d) == [5, 98, 97, 105, 100, 117, 3, 99, 111, 109, 0]
  {
    DnsUtils.QnameTwoLabels([98, 97, 105, 100, 117], [99, 111, 109]);
  }

  /** A request whose qname is that of "baidu.com" is the 27 bytes of the crate's `to_bytes_test`. */
  lemma BaiduBytes(d: seq<uint8>)
    requires DnsUtils.Qname(d) == [5, 98, 97, 105, 100, 117, 3, 99, 111, 109, 0]
    ensures RequestBytes(New(d)) == [
      209, 183, 1, 0, 0, 1, 0, 0, 0, 0, 0, 0,
      5, 98, 97, 105, 100, 117, 3, 99, 111, 109, 0, 0, 1, 0, 1]
  {
    RequestLayout(d);
  }

  /** The request for "baidu.com" is the 27 bytes of the crate's `to_bytes_test`. */
  lemma BaiduRequest(d: seq<uint8>)
    requires d == Baidu
    ensures RequestBytes(New(d)) == [
      209, 183, 1, 0, 0, 1, 0, 0, 0, 0, 0, 0,
      5, 98, 97, 105, 100, 117, 3, 99, 111, 109, 0, 0, 1, 0, 1]
  {
    BaiduLabels(d);
    BaiduQname(d);
    BaiduBytes(d);
  }
}
