/** Answer resource records of section 4.1.3 of RFC 1035 (`dns/src/resource_record.rs`).
    The record's name is always read through a compression pointer (section 4.1.4), and the
    pointer offset is computed the way the code computes it. */
module DnsResourceRecord {
  import opened Bytes
  import opened Wrappers
  import opened Cursors
  import opened DnsUtils

  datatype ResourceRecord = ResourceRecord(domain: seq<uint8>, rType: uint16, rClass: uint16,
                                           ttl: uint32, rdLength: uint16, rdata: seq<uint8>)

  /** The offset the code computes from the two pointer bytes: `(first & 63) + second`
      (`x & 63` is `x % 64` on a byte). The two tag bits of `first` are dropped unchecked. */
  function PointerOffset(first: uint8, second: uint8): (o: nat)
    ensures o < 64 + 256
  {
    first as int % 64 + second as int
  }

  /** The offset section 4.1.4 of RFC 1035 defines: the low six bits of `first` and all of
      `second` as one 14-bit big-endian number. */
  function RfcPointerOffset(first: uint8, second: uint8): (o: nat)
    ensures o < 0x4000
  {
    first as int % 64 * 256 + second as int
  }

  /** The code's offset is the RFC's offset exactly when the low six bits of the first byte are
      zero, that is, exactly for targets in the first 256 bytes of the message. */
  lemma PointerAgreesWithRfc(first: uint8, second: uint8)
    ensures PointerOffset(first, second) == RfcPointerOffset(first, second) <==> first as int % 64 == 0
    ensures RfcPointerOffset(first, second) < 256 <==> first as int % 64 == 0
  {
  }

  /** A pointer to offset 256 (bytes C1 00) is followed to offset 1 instead. */
  lemma PointerDefectExample()
    ensures RfcPointerOffset(0xC1, 0x00) == 256
    ensures PointerOffset(0xC1, 0x00) == 1
  {
  }

  /** The tag bits are never looked at: every first byte, also an ordinary label length such as
      3, is used as a pointer, with the same offset as the tagged byte `0xC0 | first`. */
  lemma PointerIgnoresTag(first: uint8, second: uint8)
    ensures PointerOffset(first, second) == PointerOffset((first as int % 64 + 0xC0) as uint8, second)
  {
  }

  /** The record's name, read through the two pointer bytes at `pos`: the name at the
      pointer offset is what `read_until(0, ..)` returns there (nothing when the offset is at or
      past the end), decoded by `qname_to_domain`. Reading then resumes right after the two
      pointer bytes. */
  function NameAt(data: seq<uint8>, pos: nat): (r: Result<Read<seq<uint8>>>)
    ensures pos + 2 > |data| ==> r == Err(UnexpectedEof)
    ensures pos + 2 <= |data| ==>
      var domain := DomainOf(UntilZero(data, PointerOffset(data[pos], data[pos + 1])).value);
      && (domain.Err? ==> r == Err(Panic))
      && (domain.Ok? ==> r == Ok(Read(domain.value, pos + 2)))
  {
    var first :- U8At(data, pos);
    var second :- U8At(data, first.next);
    var name := UntilZero(data, PointerOffset(first.value, second.value));
    var domain :- DomainOf(name.value);
    Ok(Read(domain, second.next))
  }

  /** The fixed part after the name. */
  datatype Fields = Fields(rType: uint16, rClass: uint16, ttl: uint32, rdLength: uint16)

  /** Type, class (16 bits), TTL (32 bits) and data length (16 bits), big-endian; it fails
      exactly when fewer than ten bytes remain. */
  function FieldsAt(data: seq<uint8>, pos: nat): (r: Result<Read<Fields>>)
    ensures r.Ok? <==> pos + 10 <= |data|
    ensures r.Err? ==> r.error == UnexpectedEof
    ensures r.Ok? ==> r.value == Read(Fields(U16Of(data[pos], data[pos + 1]),
                                             U16Of(data[pos + 2], data[pos + 3]),
                                             U32Of(data[pos + 4], data[pos + 5], data[pos + 6], data[pos + 7]),
                                             U16Of(data[pos + 8], data[pos + 9])), pos + 10)
  {
    var rType :- U16At(data, pos);
    var rClass :- U16At(data, rType.next);
    var ttl :- U32At(data, rClass.next);
    var rdLength :- U16At(data, ttl.next);
    Ok(Read(Fields(rType.value, rClass.value, ttl.value, rdLength.value), rdLength.next))
  }

  /** The record read at `pos`: the name through the pointer, the fixed fields, then exactly
      `rdLength` data bytes in order. */
  function RecordAt(data: seq<uint8>, pos: nat): (r: Result<Read<ResourceRecord>>)
    ensures r.Ok? ==> |r.value.value.rdata| == r.value.value.rdLength as int
    ensures r.Ok? ==> r.value.next == pos + 12 + r.value.value.rdLength as int
  {
    var domain :- NameAt(data, pos);
    var fields :- FieldsAt(data, domain.next);
    var f := fields.value;
    var rdata :- BytesAt(data, fields.next, f.rdLength as int);
    Ok(Read(ResourceRecord(domain.value, f.rType, f.rClass, f.ttl, f.rdLength, rdata.value), rdata.next))
  }

  /** Reading a record fails when fewer than two bytes remain for the pointer, panics when the
      pointed-to name does, and otherwise fails exactly when the fixed fields or the data are cut
      short. On success every field is the big-endian value of its bytes, the data are exactly
      the `rdLength` bytes after the fixed part, and the record ends 12 + `rdLength` bytes after
      `pos`. */
  lemma RecordLayout(data: seq<uint8>, pos: nat)
    ensures var r := RecordAt(data, pos);
      && (pos + 2 > |data| ==> r == Err(UnexpectedEof))
      && (pos + 2 <= |data| ==>
            var domain := DomainOf(UntilZero(data, PointerOffset(data[pos], data[pos + 1])).value);
            && (domain.Err? ==> r == Err(Panic))
            && (domain.Ok? ==>
                  && (r.Ok? <==> pos + 12 <= |data| && pos + 12 + U16Of(data[pos + 10], data[pos + 11]) as int <= |data|)
                  && (r.Err? ==> r.error == UnexpectedEof)))
    ensures var r := RecordAt(data, pos);
      r.Ok? ==>
        var rec := r.value.value;
        && rec.domain == DomainOf(UntilZero(data, PointerOffset(data[pos], data[pos + 1])).value).value
        && rec.rType == U16Of(data[pos + 2], data[pos + 3])
        && rec.rClass == U16Of(data[pos + 4], data[pos + 5])
        && rec.ttl == U32Of(data[pos + 6], data[pos + 7], data[pos + 8], data[pos + 9])
        && rec.rdLength == U16Of(data[pos + 10], data[pos + 11])
        && |rec.rdata| == rec.rdLength as int
        && r.value.next == pos + 12 + |rec.rdata|
        && rec.rdata == data[pos + 12..r.value.next]
  {
  }

  /** `read_domain_name`: `read_until(0, ..)` into an empty buffer; it never fails. */
  method ReadDomainName(rdr: Cursor) returns (name: seq<uint8>)
    modifies rdr
    ensures Read(name, rdr.pos) == UntilZero(rdr.data, old(rdr.pos))
  {
    name := rdr.ReadUntilZero();
  }

  /** The compression pointer and the name it points at: the first steps of `parse_from_reader`. */
  method ReadName(rdr: Cursor) returns (r: Result<seq<uint8>>)
    modifies rdr
    ensures r == Value(NameAt(rdr.data, old(rdr.pos)))
    ensures r.Ok? ==> rdr.pos == old(rdr.pos) + 2
  {
    var first :- rdr.ReadU8();
    var second :- rdr.ReadU8();
    var offset := PointerOffset(first, second);
    var currentPos := rdr.pos;
    rdr.SetPosition(offset);
    var name := ReadDomainName(rdr);
    rdr.SetPosition(currentPos);
    r := QnameToDomain(name);
  }

  /** The four fixed fields after the name, each read big-endian. */
  method ReadFields(rdr: Cursor) returns (r: Result<Fields>)
    modifies rdr
    ensures r == Value(FieldsAt(rdr.data, old(rdr.pos)))
    ensures r.Ok? ==> rdr.pos == old(rdr.pos) + 10
  {
    var rType :- rdr.ReadU16();
    var rClass :- rdr.ReadU16();
    var ttl :- rdr.ReadU32();
    var rdLength :- rdr.ReadU16();
    r := Ok(Fields(rType, rClass, ttl, rdLength));
  }

  /** The data bytes, pushed one `read_u8` at a time. */
  method ReadData(rdr: Cursor, n: uint16) returns (r: Result<seq<uint8>>)
    modifies rdr
    ensures r == Value(BytesAt(rdr.data, old(rdr.pos), n as int))
    ensures r.Ok? ==> rdr.pos == old(rdr.pos) + n as int
  {
    var start := rdr.pos;
    var rdata: seq<uint8> := [];
    for i := 0 to n as int
      invariant rdr.pos == start + i
      invariant BytesAt(rdr.data, start, i) == Ok(Read(rdata, start + i))
    {
      var b :- rdr.ReadU8();
      assert rdr.data[start..start + i + 1] == rdata + [b];
      rdata := rdata + [b];
    }
    r := Ok(rdata);
  }

  /** `parse_from_reader`. */
  method ParseFromReader(rdr: Cursor) returns (r: Result<ResourceRecord>)
    modifies rdr
    ensures r == Value(RecordAt(rdr.data, old(rdr.pos)))
    ensures r.Ok? ==> rdr.pos == RecordAt(rdr.data, old(rdr.pos)).value.next
  {
    var domain :- ReadName(rdr);
    var f :- ReadFields(rdr);
    var rdata :- ReadData(rdr, f.rdLength);
    r := Ok(ResourceRecord(domain, f.rType, f.rClass, f.ttl, f.rdLength, rdata));
  }
}
