/** The fixed 12-byte header of section 4.1.1 of RFC 1035 (`dns/src/header.rs`). */
module DnsHeader {
  import opened Bytes
  import opened Wrappers
  import opened Cursors

  /** The six 16-bit fields in wire order; `unparsed` is the flags word, which the code never
      takes apart. `qd_count()` and `answer_count()` are the selectors `qdCount` and `anCount`. */
  datatype Header = Header(id: uint16, unparsed: uint16, qdCount: uint16,
                           anCount: uint16, nsCount: uint16, arCount: uint16)

  /** The fixed id every request carries. */
  const RequestId: uint16 := 209 * 256 + 183

  /** The flags word with only RD (recursion desired, bit 8) set. */
  const RecursionDesired: uint16 := 0x0100

  /** `Header::new`: a request for recursion with one question and no records. */
  function New(): (h: Header)
    ensures h.id == RequestId && h.unparsed == RecursionDesired
    ensures h.qdCount == 1 && h.anCount == 0 && h.nsCount == 0 && h.arCount == 0
  {
    Header(RequestId, RecursionDesired, 1, 0, 0, 0)
  }

  /** The twelve bytes of a header: the six fields big-endian, in declaration order. */
  function HeaderBytes(h: Header): (r: seq<uint8>)
    ensures |r| == 12
  {
    U16Bytes(h.id) + U16Bytes(h.unparsed) + U16Bytes(h.qdCount)
    + U16Bytes(h.anCount) + U16Bytes(h.nsCount) + U16Bytes(h.arCount)
  }

  /** `to_bytes`: appends the twelve header bytes to the caller's buffer; writing to a `Vec`
      never fails. */
  method ToBytes(h: Header, bytes: seq<uint8>) returns (r: Result<seq<uint8>>)
    ensures r == Ok(bytes + HeaderBytes(h))
    ensures |r.value| == |bytes| + 12 && r.value[..|bytes|] == bytes
  {
    var b := bytes;
    b := b + U16Bytes(h.id);
    b := b + U16Bytes(h.unparsed);
    b := b + U16Bytes(h.qdCount);
    b := b + U16Bytes(h.anCount);
    b := b + U16Bytes(h.nsCount);
    b := b + U16Bytes(h.arCount);
    r := Ok(b);
    assert b == bytes + HeaderBytes(h);
  }

  /** The header read at `pos`: six big-endian 16-bit reads. It fails exactly when fewer than
      twelve bytes remain, and otherwise holds the six byte pairs in order and ends twelve
      bytes further on. */
  function HeaderAt(data: seq<uint8>, pos: nat): (r: Result<Read<Header>>)
    ensures r.Ok? <==> pos + 12 <= |data|
    ensures r.Err? ==> r.error == UnexpectedEof
    ensures r.Ok? ==> r.value.next == pos + 12
    ensures r.Ok? ==> r.value.value == Header(
      U16Of(data[pos], data[pos + 1]), U16Of(data[pos + 2], data[pos + 3]),
      U16Of(data[pos + 4], data[pos + 5]), U16Of(data[pos + 6], data[pos + 7]),
      U16Of(data[pos + 8], data[pos + 9]), U16Of(data[pos + 10], data[pos + 11]))
  {
    var id :- U16At(data, pos);
    var unparsed :- U16At(data, id.next);
    var qd :- U16At(data, unparsed.next);
    var an :- U16At(data, qd.next);
    var ns :- U16At(data, an.next);
    var ar :- U16At(data, ns.next);
    Ok(Read(Header(id.value, unparsed.value, qd.value, an.value, ns.value, ar.value), ar.next))
  }

  /** `parse_from_reader`. */
  method ParseFromReader(rdr: Cursor) returns (r: Result<Header>)
    modifies rdr
    ensures r == Value(HeaderAt(rdr.data, old(rdr.pos)))
    ensures r.Ok? ==> rdr.pos == old(rdr.pos) + 12
  {
    var id :- rdr.ReadU16();
    var unparsed :- rdr.ReadU16();
    var qd :- rdr.ReadU16();
    var an :- rdr.ReadU16();
    var ns :- rdr.ReadU16();
    var ar :- rdr.ReadU16();
    r := Ok(Header(id, unparsed, qd, an, ns, ar));
  }

  /** Parsing what `to_bytes` wrote gives the header back, whatever surrounds it. */
  lemma HeaderRoundTrip(h: Header, before: seq<uint8>, after: seq<uint8>)
    ensures HeaderAt(before + HeaderBytes(h) + after, |before|) == Ok(Read(h, |before| + 12))
  {
    var data := before + HeaderBytes(h) + after;
    var p := |before|;
    assert data[p..p + 12] == HeaderBytes(h);
    forall k | 0 <= k < 6
      ensures U16Of(data[p + 2 * k], data[p + 2 * k + 1]) ==
        [h.id, h.unparsed, h.qdCount, h.anCount, h.nsCount, h.arCount][k]
    {
      var f := [h.id, h.unparsed, h.qdCount, h.anCount, h.nsCount, h.arCount][k];
      assert data[p + 2 * k] == U16Bytes(f)[0] && data[p + 2 * k + 1] == U16Bytes(f)[1];
    }
  }

  /** `Header::new().to_bytes` appends 209 183 1 0 0 1 0 0 0 0 0 0. */
  lemma NewHeaderBytes()
    ensures HeaderBytes(New()) == [209, 183, 1, 0, 0, 1, 0, 0, 0, 0, 0, 0]
  {
  }
}
