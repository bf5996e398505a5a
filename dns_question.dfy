/** The question section of section 4.1.2 of RFC 1035 (`dns/src/question.rs`). */
module DnsQuestion {
  import opened Bytes
  import opened Wrappers
  import opened Cursors
  import opened DnsUtils

  datatype Question = Question(domain: seq<uint8>, qType: uint16, qClass: uint16)

  /** QTYPE A, a host address. */
  const TypeA: uint16 := 1
  /** QCLASS IN, the Internet. */
  const ClassIn: uint16 := 1

  /** `Question::new`: an address question in the Internet class for `domain`. */
  function New(domain: seq<uint8>): (q: Question)
    ensures q.domain == domain && q.qType == TypeA && q.qClass == ClassIn
  {
    Question(domain, TypeA, ClassIn)
  }

  /** The qname of the domain, then the type and the class, big-endian. */
  function QuestionBytes(q: Question): seq<uint8> {
    Qname(q.domain) + U16Bytes(q.qType) + U16Bytes(q.qClass)
  }

  /** `to_bytes`: pushes the qname byte by byte, then writes type and class; it never fails. */
  method ToBytes(q: Question, bytes: seq<uint8>) returns (r: Result<seq<uint8>>)
    ensures r == Ok(bytes + QuestionBytes(q))
    ensures |r.value| == |bytes| + |q.domain| + 6 && r.value[..|bytes|] == bytes
  {
    var qname := DomainToQname(q.domain);
    var b := bytes;
    for i := 0 to |qname|
      invariant b == bytes + qname[..i]
    {
      b := b + [qname[i]];
      assert qname[..i + 1] == qname[..i] + [qname[i]];
    }
    assert qname[..|qname|] == qname;
    b := b + U16Bytes(q.qType);
    b := b + U16Bytes(q.qClass);
    r := Ok(b);
    assert b == bytes + QuestionBytes(q);
  }

  /** The question read at `pos`: the name is what `read_until(0, ..)` returns, decoded by
      `qname_to_domain` (which panics on a run past its end); then come two big-endian 16-bit
      reads. Past the name it fails exactly when fewer than four bytes remain; on success it
      ends four bytes after the name. */
  function QuestionAt(data: seq<uint8>, pos: nat): (r: Result<Read<Question>>)
    ensures var n := UntilZero(data, pos);
      && (r.Ok? <==> DomainOf(n.value).Ok? && n.next + 4 <= |data|)
      && (r.Err? && DomainOf(n.value).Ok? ==> r.error == UnexpectedEof)
      && (r.Ok? ==>
            && r.value.next == pos + |n.value| + 4
            && r.value.value == Question(DomainOf(n.value).value,
                                         U16Of(data[n.next], data[n.next + 1]),
                                         U16Of(data[n.next + 2], data[n.next + 3])))
  {
    var name := UntilZero(data, pos);
    var domain :- DomainOf(name.value);
    var qType :- U16At(data, name.next);
    var qClass :- U16At(data, qType.next);
    Ok(Read(Question(domain, qType.value, qClass.value), qClass.next))
  }

  /** `parse_from_reader`. */
  method ParseFromReader(rdr: Cursor) returns (r: Result<Question>)
    modifies rdr
    ensures r == Value(QuestionAt(rdr.data, old(rdr.pos)))
    ensures r.Ok? ==> rdr.pos == QuestionAt(rdr.data, old(rdr.pos)).value.next
  {
    var qname := rdr.ReadUntilZero();
    var domain :- QnameToDomain(qname);
    var qType :- rdr.ReadU16();
    var qClass :- rdr.ReadU16();
    r := Ok(Question(domain, qType, qClass));
  }

  /** Parsing what `to_bytes` wrote for `Question::new(d)` gives `d`, type 1 and class 1, and
      ends right after it, whatever surrounds it. */
  lemma QuestionRoundTrip(domain: seq<uint8>, before: seq<uint8>, after: seq<uint8>)
    requires WellFormedDomain(domain) && 0 !in domain
    ensures var q := New(domain);
      QuestionAt(before + QuestionBytes(q) + after, |before|)
        == Ok(Read(q, |before| + |domain| + 6))
  {
    var q := New(domain);
    var runs := Runs(Split(domain, Dot));
    QnameNulFree(domain);
    QnameLength(domain);
    QnameRoundTrip(domain);
    var data := before + QuestionBytes(q) + after;
    var p := |before|;
    assert data == before + runs + [0] + (U16Bytes(TypeA) + U16Bytes(ClassIn) + after);
    assert data[p..p + |runs|] == runs;
    UntilZeroStops(data, p, runs);
    var m := p + |domain| + 2;
    assert data[m..m + 4] == U16Bytes(TypeA) + U16Bytes(ClassIn);
  }
}
